# The evidence pipeline of JJ DAI, modelled and proved in Dafny

A node of the system keeps a signed, hash-chained witness log. It publishes RFC 6962 tree
heads of that log, replicates them and the records themselves to its peers, takes salts from
neighbours to bound when a record can have existed, anchors the log with outside backends,
and decides releases, key lifetimes, containment and knowledge writes by what the log says
and where. This project models that stack and proves what it promises over all inputs and
over all runs: of stores under arbitrary delivery, of the two-party salt protocol under every
interleaving, of the anchor scheduler under arbitrary backends and clocks, and of the ledgers
under arbitrary calls.

Conventions of the model. A hash is a free constructor over what it covers, so it has no
collisions. A signature is the fact that a key signed a message. Clocks, salts and the answers
of backends, resolvers, disks and registries are inputs. A journal is a sequence, and one
durable write happens or does not. A Python exception is a constructor of a result type.
Where the source changes state in place the model is a class or a loop, proved against a
function on values; the whole-run theorems are about that function.

The modules, in the order they build on each other:

- `MerkleTree`, `MerkleVerify`, `LegacyMerkle`: the two hash trees and their verifiers.
- `Witness`, `WitnessLog`: the chain, its verification, and every run of appends and restarts.
- `Replication`, `ReplicationRuns`, `ReplicationLinks`, `ReplicationExact`: peers hold heads, judge them and link them
  by proofs; what any run holds, records and accuses.
- `Ranges`, `Segments`, `Recovery`: peers hold records, find their gaps, and recover a chain.
- `Entanglement`, `Beacons`, `EntanglementRivals`: salts, beacons and the judgement of two histories.
- `Release`, `ReleaseRuns`, `ReleaseExact`: attestations, publications and revocations by chain position.
- `Anchoring`, `AnchoringExact`: the scheduler's ratchets, its restart, its self-anchoring bound and its retry clock.
- `KeyOrder`, `JsonText`, `Canonical`: the RFC 8785 text of a JSON value, and a reader for it.
- `Containment`, `ContainmentExact`, `ContainmentAudit`, `ContainmentFaults`: the ledger of contained beings and the
  governor's gate, the audit of its journal, and calls that end early because a write raises.
- `RagStore`, `PlaneH`, `PlaneHRuns`, `PlaneHEvidence`, `PlaneHExact`, `PlaneHRetrieval`: governed knowledge over the
  chunk table.
- `WasmImports`, `WasmNames`, `WasmEncoding`: the import reader of the `pure` boundary, its names, and an encoder.

## Where the code does less than its documentation says

Each of these is a theorem of the model: a case in which the promise fails, and the exact
condition under which it holds.

- `mth_verify_inclusion` says a proof cannot be replayed for another position or tree size
  (jjdai/merkle.py:123-124). Against one head, a proof made for (index, size) is accepted at
  every other claim with the same sequence of sides, and at no further one: the verifier is
  exact only when the size is the true one (`InclusionAtAnyClaim`,
  `InclusionReplaysAtAnotherSize`).
- `ReplicaStore` replaces a held root when the algorithm field changes (core/replication.py:287-293),
  so links recorded as verified survive a swapped root (`LinkKeptUnlessUpgraded`,
  `AlgorithmFlipSwapsRoot`).
- `consistency_wanted` says that one link per new root proves every held checkpoint a prefix of
  the newest (core/replication.py:327-331). It asks for the newest link only. Whatever claims are
  delivered, over rfc6962 roots all links are recorded exactly when none is asked for now and each
  link that a newer root displaced while it was asked for was claimed afterwards, consistently
  (`LinksCompleteExactly`, `LateLinkExample`, `LateReplyExample`). The store does not ask for a
  displaced link again (`MissedLinkNeverWanted`). An honest origin's own reply records the link asked
  for exactly when its chain has not grown past it (`ReplyRecordsAskedIff`). No run links a head over
  no records (`EmptyHeadStaysUnlinked`). A link claimed before its counts are held is never asked for,
  through any later deliveries, and may then join unrelated roots (`UnheldClaimSilences`); links
  claimed while held do prove the prefixes (`LinksProvePrefixes`).
- `ReplicaStore` and `SegmentStore` update memory before the durable write. After a failed
  write the live object and a restart agree exactly when the delivery left nothing new to
  write, a condition on the delivery and the store before it; a new segment whose write failed is refused as a duplicate after whatever is delivered later
  (`FailedWriteLosesSync` of `Replication` and of `Recovery`, `FailedRootExample`,
  `FailedSegmentExample`).
- `WitnessChain.append` takes minted salts back only when the write fails. They also stay
  behind when the request was committed and a later field cannot be serialized (`SaltsStayOpen`,
  `SaltLeakExample`).
- `SaltBeacon.issue` reads the chain length before it appends. The salt verifies against later
  exports exactly when nothing was appended in between (`SaltVerifiesIffAtomic`,
  `RacedSaltExample`).
- `judge_divergence` takes the signed root of any node as the agreed root. With another node's
  root an honest run exists in which the true chain is named (`ForeignRootNamesTrueChain`);
  with the origin's own root it never is (`RivalNamedExactly`).
- `judge_divergence` calls a record below the agreed count that embeds a later salt a proven
  rewrite (core/entanglement.py:330-335). It reads the unsigned index beside the salt, not the
  one its issuer signed. A rival that writes the index its record has from the end is not named,
  and one that writes an index below the first record makes the judge raise
  (`WrappedIndexEscapes`, `LowIndexRaises`, `OneSaltEveryIndex`). A rival of genuine salts is
  named exactly when no index is that low and some entry copies the envelope of a late salt
  (`GenuineRivalNamedExactly`); if all entries copy their envelopes, exactly when it embeds a
  late salt at all (`CopyingRivalNamedExactly`).
- `_settle` reports CONTAINED for a corroborated case that the call neither releases nor frees of
  its challenges, and for no other (`ReportedState`, `ReportedStateExample`).
- `_emit` changes memory, then writes the journal, then the chain, and any of the writes may raise.
  The journal on disk passes the audit exactly when no event of it missed the chain and none was
  chained after a failed journal write without a restart between (`JournalPassesIff`,
  `LostEventExample`, `UnwitnessedEventExample`). Against any chain the audit accepts at most one
  journal, the events that reached the chain, and that one exactly when none was chained after such
  a failure or after an event had missed the chain (`AuditAcceptsExactly`).
- `verify` promises that an unsupported finding releases the being and slashes the initiator
  (core/containment.py:285-288). A call that raises keeps the ledger's invariant exactly when it does not
  record an unsupported finding on an open case, and raise before the release or, with a registry, before
  the slash (`RaiseKeepsInvariantIff`). The finding left open is settled by the next verification,
  resolution or rehabilitation of the case (`NextSettlementRepairs`), but until then erasure can be
  proposed (`FalseFindingProposedExample`); a missed slash stays missed (`MissedSlashStays`). A journal
  boots exactly when every event in it follows the one that opened its case (`BootsIffOpened`,
  `LostOpeningExample`), and one that boots may have lost the support of a corroborated case
  (`LostSupportExample`).
- `parse_imports` promises to refuse an import section it cannot read. A section whose import
  count lies outside it is read as importing nothing when that count is zero; apart from that
  family the accepted bytes are exactly the encodings (`ReaderAcceptsEncodings`,
  `SpilledCountImportsNothing`, `SpilledCountExample`).
- core/plane_h.py:26-28 says a signed proposal stays verifiable after redaction. The verifier
  asks for the text, so it accepts the envelope of a redacted chunk only from someone who kept
  the text (`EnvelopeNeedsItsText`, `ForgottenTextExample`).
- `GovernedPlaneH.apply` says the tables and the witness record commit together or not at all
  (core/plane_h.py:234-241). The record is written first. If the commit is then lost, log and
  metadata agree exactly when the proposal was not admitted or its operation was refused
  (`LostCommitParts`, `LostCommitExample`).

Three remarks. A proposal to add can be applied again, unlike the other two (`ReplayRefused`).
`_anchor_round` moves its marks before it appends its record, so a round whose append raises is not
recorded by a later one (`LostAnchorRecordStaysLost`).
jjdai/merkle.py:172 cites section 2.1.4.2 of RFC 6962 for the consistency verifier; that section
is in RFC 9162. The tree and the proofs are those of section 2.1 of RFC 6962.

## Model

| member | source | states |
|---|---|---|
| MerkleTree.Split | jjdai/merkle.py:89-94 | the doubling loop finds the split point |
| MerkleTree.SplitPointUnique | jjdai/merkle.py:89-94 | that point is the only power of two k with k < n <= 2k |
| MerkleTree.HeadSplits | jjdai/merkle.py:97-105 | the head of a perfect left part followed by at most as many leaves is the node of their heads; the empty and one-leaf heads |
| MerkleTree.MiddleOfThree | jjdai/merkle.py:97-118 | the head of three leaves and the path of the middle one, with its sides |
| MerkleTree.MthInjective | jjdai/merkle.py:97-105 | equal tree heads force equal leaf lists, of any two lengths |
| MerkleTree.MthOfPrefix | jjdai/merkle.py:97-105 | the head of a prefix reaching past the split point has the left subtree of the whole tree |
| MerkleTree.LoopFollowsRecursion | jjdai/merkle.py:108-145 | the sides the bit-shifting verifier consumes for (index, n) are those the recursive prover emits |
| MerkleTree.AlignedLoopFollowsRecursion | jjdai/merkle.py:160-190 | after the shift loop the consistency verifier consumes the sides of the recursive subproof, for every m < n |
| MerkleVerify.VerifyInclusion | jjdai/merkle.py:121-145 | the loop accepts exactly the paths with the prescribed sides that climb from the leaf to the root |
| MerkleVerify.ShiftToOdd | jjdai/merkle.py:136-145 | the inner shift loop skips exactly the levels where the node has no sibling |
| MerkleVerify.ClimbFindsLeaf | jjdai/merkle.py:121-145 | any path at all that climbs to a head is that tree's own audit path of some leaf |
| MerkleVerify.InclusionExact | jjdai/merkle.py:108-145 | at the true size, accepted if and only if the leaf is the one at that index and the path is the prover's |
| MerkleVerify.InclusionAtAnyClaim | jjdai/merkle.py:121-145 | at any claimed size, accepted if and only if the path is the prover's for a leaf whose sides equal the claim's |
| MerkleVerify.InclusionReplaysAtAnotherSize | jjdai/merkle.py:123-124 | the path of leaf 2 of 3 is accepted as leaf 1 of 2 against the same head |
| MerkleVerify.BitLengthTest | jjdai/merkle.py:179-180 | the power-of-two test of the prepend agrees with being a power of two |
| MerkleVerify.ShiftOutOnes | jjdai/merkle.py:183-186 | the shift loop leaves the state whose remaining sides are those of the consistency proof |
| MerkleVerify.VerifyConsistency | jjdai/merkle.py:170-201 | the loop accepts exactly when one path rebuilds both the old and the new head |
| MerkleVerify.ReplayPath | jjdai/merkle.py:183-201 | the paired fr and sr updates fold the path into both heads and end with sn at zero |
| MerkleVerify.CompleteOmitsOldRoot | jjdai/merkle.py:148-180 | prepending the old root restores what the prover omits for a complete old subtree |
| MerkleVerify.ConsistencyPathRebuilds | jjdai/merkle.py:148-201 | the recursive path folds back into the heads of the prefix and of the whole |
| MerkleVerify.NewHeadFixesPath | jjdai/merkle.py:170-201 | a path that folds into the new head is the prover's |
| MerkleVerify.ConsistencyExact | jjdai/merkle.py:148-201 | against a true new head, accepted if and only if the old root is the prefix's head and the proof is the prover's |
| MerkleVerify.ConsistencySound | jjdai/merkle.py:170-201 | any accepted proof between two heads forces the first list to be a prefix of the second |
| MerkleVerify.ConsistencyComplete | jjdai/merkle.py:148-201 | for every list and 0 < m <= its length the prover's proof is accepted |
| LegacyMerkle.MerkleRoot | jjdai/merkle.py:31-40 | the level loop computes the duplicate-padding root |
| LegacyMerkle.MerkleProof | jjdai/merkle.py:43-59 | the level loop computes the audit path |
| LegacyMerkle.MerkleVerifyPath | jjdai/merkle.py:62-66 | accepts exactly the paths that climb from the leaf to the root |
| LegacyMerkle.LegacyComplete | jjdai/merkle.py:31-66 | every path handed out verifies against its root |
| LegacyMerkle.LegacySound | jjdai/merkle.py:31-66 | no path whatsoever makes a foreign leaf verify |
| LegacyMerkle.EqualCountInjective | jjdai/merkle.py:31-40 | at equal counts the root determines the list |
| LegacyMerkle.PaddingCollides | jjdai/merkle.py:31-40 | at different counts it does not: repeating the last of an odd number of leaves keeps the root |
| Witness.VerifyChain | jjdai/witness.py:406-418 | true exactly for chains whose every index, link, hash and signature holds |
| Witness.Replay | jjdai/witness.py:420-427 | the loop re-derives the head from the bodies alone |
| Witness.ReplayReachesHead | jjdai/witness.py:406-427 | on a verifying chain that re-derived head is the stored one |
| Witness.SameHeadSameBodies | jjdai/witness.py:261-262 | two verifying chains with one head have identical bodies, under whichever keys |
| Witness.OnlyEmptyHeadIsGenesis | jjdai/witness.py:261-262 | the genesis head belongs to the empty chain alone |
| WitnessLog.WitnessChain.Append | jjdai/witness.py:272-404 | the step on records, salts and log, for accepted, refused, unserializable and failed-write appends |
| WitnessLog.WitnessChain.Reload | jjdai/witness.py:456-471 | memory is rebuilt from the log and local salts are lost |
| WitnessLog.RunsStayIntact | jjdai/witness.py:359-427 | after every run the chain verifies, memory equals the log and replay reaches the head |
| WitnessLog.RunsOnlyAppend | jjdai/witness.py:359-404 | a record stays at its index through every later event |
| WitnessLog.SaltsStayOpen | jjdai/witness.py:389-400 | salts keep opening existing records if and only if the call does not leak one |
| WitnessLog.SaltLeakExample | jjdai/witness.py:369-371 | a request committed before an unserializable response leaves a salt behind |
| WitnessLog.RunsKeepSaltsOpen | jjdai/witness.py:267-270 | over leak-free runs every local salt opens its record |
| WitnessLog.OpensToWhatWasGiven | jjdai/witness.py:440-446 | until a restart, through any later calls, an appended record opens to exactly the request and response it was given |
| WitnessLog.AppendExact | jjdai/witness.py:272-404 | an append succeeds if and only if admitted, serializable and written; the record then has the next index, the head, the node, and the kind, provenance and fields it was given |
| WitnessLog.RefusalExact | jjdai/witness.py:272-404 | which of the refusals is given, and when |
| WitnessLog.RestartForgets | jjdai/witness.py:456-471 | a restart reads the records back from the log and forgets every salt |
| Replication.VerifyConsistencyEnvelope | core/replication.py:126-170 | the staged checks decide bad, inconsistent or consistent, with or without pins |
| Replication.ReplicaStore.Accept | core/replication.py:277-310 | verdict, held roots, evidence and journal after a delivered root |
| Replication.ReplicaStore.RecordConsistency | core/replication.py:342-369 | verdict, verified pairs, prefix, evidence and journal after a claim |
| Replication.Restart | core/replication.py:231-267 | the reload loop, refusing a journal line that does not verify |
| Replication.MadeEnvelopesAreHonest | core/replication.py:68-123 | heads and claims the node makes verify, at every chain length and old count |
| Replication.NoFalseAccusation | core/replication.py:277-369 | under any delivery order, loss, duplication and foreign traffic an honest origin gets no evidence |
| Replication.ConsistentResultLinks | core/replication.py:342-369 | a consistent result with both counts held links the two held roots by a proof |
| Replication.LinkKeptUnlessUpgraded | core/replication.py:277-310 | a delivery keeps a link if and only if it is not a verified root that differs in root and in algorithm from the one held at either end |
| Replication.LinksCompose | core/replication.py:342-369 | in any state, along linked counts every held root is the head of a prefix of the newest list |
| Replication.LinkedTreesArePrefixes | core/replication.py:342-369 | in any state the first and the last tree of linked counts are a prefix pair |
| ReplicationRuns.RecordedLinkLasts | core/replication.py:342-369 | a result recorded at any point of a run links the roots held at its end, unless the algorithm was changed at one of its counts afterwards |
| ReplicationRuns.RecordedResultsCompose | core/replication.py:326-369 | results recorded at any points of a run compose: the tree at the first count is a prefix of the tree at the last |
| ReplicationRuns.ConsistencyWanted | core/replication.py:326-340 | asks for the two newest provable counts if their link is not recorded, and for nothing otherwise |
| ReplicationLinks.LinksCompleteExactly | core/replication.py:326-369 | over any deliveries with rfc6962 roots, all neighbouring links are recorded if and only if none is asked for now and each that a newer root displaced while asked for was claimed afterwards and consistent then |
| ReplicationLinks.RecordedIffClaimed | core/replication.py:342-361 | a link is recorded if and only if some claim over it was consistent when it came |
| ReplicationLinks.PromptRunCompletes | core/replication.py:326-340 | if no root went on top while a link was asked for, the links are complete if and only if none is asked for now, whatever claims came |
| ReplicationLinks.ReplyRecordsAskedIff | node/daemon.py:795-808 | the reply an honest origin makes is never found inconsistent, and records the link asked for if and only if its chain has the asked length |
| ReplicationLinks.LinksProvePrefixes | core/replication.py:326-369 | if every neighbouring pair was claimed while held, every held checkpoint is the head of a prefix of the newest tree, whatever else was claimed |
| ReplicationLinks.TimelyLinksAreHeld | core/replication.py:342-361 | if no claim came before its counts, complete links are links claimed while held |
| ReplicationLinks.MissedLinkNeverWanted | core/replication.py:326-340 | once a newer root is held the link below it is not asked for, whatever is delivered, unless the newer root changes its algorithm |
| ReplicationLinks.LateLinkExample | core/replication.py:326-340 | three heads and one link: nothing is asked for and a link is missing |
| ReplicationLinks.LateReplyExample | core/replication.py:326-369 | the same heads with the displaced link arriving late: the links are complete |
| ReplicationLinks.EmptyHeadStaysUnlinked | core/replication.py:126-170 | in no run are the links complete while a head over no records is held beside another |
| ReplicationLinks.UnheldClaimSilences | core/replication.py:342-361 | a link claimed before its counts are held is not asked for after any further deliveries, and leaves two unrelated roots with their link recorded |
| Replication.AlgorithmFlipSwapsRoot | core/replication.py:287-293 | two deliveries install any other root at a held count with no evidence |
| Replication.RivalRootRecorded | core/replication.py:277-310 | a different signed root at a held count becomes evidence if and only if its algorithm is the held one |
| Replication.EquivocationCaught | core/replication.py:277-310 | once a root is held, a rival root at its count is evidence for good, whatever is delivered in between and after, unless the algorithm was changed there first |
| Replication.RestartRebuilds | core/replication.py:231-267 | replaying the journal of any run is never refused and rebuilds the live store |
| Replication.FailedWriteLosesSync | core/replication.py:269-310 | after a failed write, restart and memory agree if and only if the root does not verify, is held, or is stale; or the claim is unreadable, pinned to a foreign root, or consistent and recorded already |
| Replication.FailedRootExample | core/replication.py:305-310 | the first root of a fresh store with a failing write is held in memory and lost to a restart |
| ReplicationExact.RootVerifiesIff | core/replication.py:82-97 | a root verifies if and only if it is what its own key signs, as a root, in its own node's name, at a count of zero or more |
| ReplicationExact.ClaimReadableIff | core/replication.py:126-170 | a claim without pins is rejected if and only if it is not what its own key signs as a claim over ordered positive counts |
| ReplicationExact.HeldIffLed | core/replication.py:277-310 | after any run a count is held if and only if a root signed at it came before any root of that origin over more records |
| ReplicationExact.RunsStayFiled | core/replication.py:277-310 | after any run every held root is a signed one under its own node and count |
| ReplicationExact.FalseClaimCaught | core/replication.py:126-170 | against a held head of a list, a readable claim is consistent if and only if it states that head, the prefix's head and the prover's path and agrees with the older held root; any other is kept as evidence with the roots it was held against |
| ReplicationExact.OneEvidencePerContradiction | core/replication.py:277-369 | after any run there is one piece of evidence for each delivery that contradicted what was held when it came, and no other |
| ReplicationExact.PrefixExact | core/replication.py:342-369 | after any run the verified prefix is the largest older count of a recorded pair, and 0 without one |
| Ranges.Coverage | core/segments.py:212-221 | sorted ranges, apart by at least one, whose union is exactly the held indices |
| Ranges.Missing | core/segments.py:223-234 | sorted ranges, apart by at least one, whose union is exactly the unheld indices below count, for every count |
| Segments.MadeSegmentsVerify | core/segments.py:65-134 | every segment a sound chain can make verifies |
| Segments.VerifySegment | core/segments.py:89-134 | the loop with its running predecessor accepts exactly the authentic, contiguous, linked ranges |
| Segments.SegmentValidIff | core/segments.py:65-134 | a segment verifies if and only if it is what its own key signs over a non-empty range of records it signed, each at its index and naming its predecessor, from genesis at 0 |
| Segments.SegmentStore.Accept | core/segments.py:182-208 | verdict, held records, evidence and journal after a delivered segment |
| Segments.DivergenceExact | core/segments.py:182-208 | judged divergent if and only if valid and contradicting a held record; the evidence is the held and the offered record at the first such index |
| Segments.SegmentStore.NextGap | core/segments.py:236-241 | starts at the lowest missing index and takes all of its gap up to the record cap; none exactly when nothing is missing |
| Segments.AcceptKeepsAuthentic | core/segments.py:182-208 | whatever is held was hashed, signed and indexed by its origin |
| Segments.HonestSegmentFits | core/segments.py:182-208 | a segment of the origin's chain adds exactly its range and accuses nobody |
| Segments.GapShrinks | core/segments.py:182-241 | answering the requested gap strictly lowers the number of missing records |
| Segments.SegmentStore.CatchUp | core/segments.py:182-241 | the loop of requesting the gap and accepting it asks for each missing record once, in order, and ends with nothing missing |
| Recovery.RunsHoldAuthentic | core/segments.py:182-208 | after any deliveries every held record is authentic |
| Recovery.NoFalseDivergence | core/segments.py:182-208 | under any deliveries an honest origin gets no evidence and what is held is part of its chain |
| Recovery.HeldIffDelivered | core/segments.py:182-208 | an index of an honest origin is held if and only if a valid segment spanning it arrived |
| Recovery.RestartRebuilds | core/segments.py:155-180 | replaying the journal of any run is never refused and rebuilds the live store |
| Recovery.FailedWriteLosesSync | core/segments.py:172-208 | after a failed write, restart and memory agree if and only if the segment is invalid or all its records are held; a new segment whose write failed is a duplicate after any further deliveries, so no retry writes it |
| Recovery.RunKeepsHashes | core/segments.py:182-208 | what is held stays held under the same hash through any deliveries |
| Recovery.FailedSegmentExample | core/segments.py:182-208 | the first segment of a fresh store with a failing write is held in memory, lost to a restart and a duplicate ever after |
| Recovery.FirstBrokenSeam | core/segments.py:291-297 | the seam loop finds the first record that does not name its predecessor |
| Recovery.RecoverRecords | core/segments.py:256-309 | each of the eight answers is given if and only if its own condition holds after the earlier ones passed: root, origin, algorithm, gaps named exactly, first broken seam, root, head, or the records |
| Recovery.JudgeAssembled | core/segments.py:289-309 | the answer for records with no gap: first broken seam, root mismatch, head mismatch, or the records |
| Recovery.RecoveryExact | core/segments.py:256-309 | against the origin's root it succeeds if and only if the origin's records are held below count, and returns those |
| Recovery.RecoveryAfterAnyRun | core/segments.py:182-309 | after any deliveries it succeeds if and only if every index below count was in some segment of the origin that arrived |
| Recovery.AnswerAfterAnyRun | core/segments.py:182-309 | after any deliveries, against the origin's root the answer is the records or the gaps; the gaps are exactly the indices below count that were not delivered |
| Entanglement.SaltBeacon.Issue | core/entanglement.py:73-119 | the issuance is on the issuer's chain with the envelope's index and head, or nothing changes |
| Entanglement.SaltValidIff | core/entanglement.py:122-139 | a salt verifies if and only if it is what its own key issues in its own node's name with the hash of its salt |
| Entanglement.IssueIsAStep | core/entanglement.py:73-119 | a call of issue that nothing overtakes is a step of the protocol; the honesty of its cross-link follows from its own check |
| Beacons.BeaconFrom | core/entanglement.py:142-180 | a beacon exists exactly for a nonempty list of valid salts addressed to the recipient; it has their entries, with issue times and cross-links, sorted by issuer, the number of issuers and the earliest issue time |
| Beacons.SortIsStable | core/entanglement.py:174-175 | the entries ascend by issuer and each issuer keeps its order |
| Entanglement.FindIssuerCheckpoint | core/entanglement.py:292-315 | the earliest issuer record that witnesses the origin at the count with the root |
| Entanglement.WitnessesExact | core/entanglement.py:292-315 | a record is a checkpoint if and only if it shows this root of the origin, as a peer root or a cross-link, at the count or above |
| Entanglement.ScanRecord | core/entanglement.py:356-380 | one beacon's verified salts are added to the running maximum and to the findings |
| Entanglement.Scan | core/entanglement.py:356-380 | the maximum over all verified salts below the agreed count; the findings are exactly the late ones, in the order of their records |
| Entanglement.NegativeCut | core/entanglement.py:356-362 | an agreed count below zero leaves out that many records at the end |
| Entanglement.JudgeDivergence | core/entanglement.py:322-400 | cryptographic exactly when one side alone has a late salt, naming that side with exactly its late salts; otherwise A is the suspect if and only if B has a verified salt and some verified salt of A is later than all of them, the same with the sides exchanged, and nobody else |
| EntanglementRivals.LaterSaltIsSuspect | core/entanglement.py:397-400 | of two histories with one verified salt each and no agreed root, the one with the later salt is the suspect, and none at equal indices |
| EntanglementRivals.SuspectExample | core/entanglement.py:397-400 | two concrete salts at indices 1 and 0: the history with the first is the suspect |
| Entanglement.SaltVerifiesIffAtomic | core/entanglement.py:73-119 | an issued salt verifies against every later export if and only if nothing was appended between reading the index and writing |
| Entanglement.RunsKeepInvariant | core/entanglement.py:62-119 | over every interleaving a record embedding the salt issued at k sits at or above every count witnessed before k |
| Entanglement.LateSaltSitsAbove | core/entanglement.py:183-212 | a verified salt later than a witness lies at or above the witnessed count |
| Entanglement.TrueChainNeverLate | core/entanglement.py:322-396 | no verified salt of the true chain below the agreed count is later than the checkpoint |
| Entanglement.RivalNamedExactly | core/entanglement.py:322-396 | beside the true chain a cryptographic verdict names only the rival, and names it if and only if there is a checkpoint, no salt of it makes the scan raise, and one verifies at an entry index after the checkpoint |
| Entanglement.TrueChainNeverCrashes | core/entanglement.py:183-212 | no index in the true chain makes the scan raise |
| EntanglementRivals.RunsKeepSaltsFresh | core/entanglement.py:81-119 | no two issuances of an honest issuer share a hash |
| EntanglementRivals.CountsIffRepeats | core/entanglement.py:183-212 | a genuine salt shown under its own hash counts as late if and only if its entry copies the envelope and the signed index is late |
| EntanglementRivals.WrappedIndexEscapes | core/entanglement.py:199-212 | written with the index from the end a late salt verifies and is not late |
| EntanglementRivals.LowIndexRaises | core/entanglement.py:199-204 | written with an index below the first record it makes the scan raise |
| EntanglementRivals.GenuineRivalNamedExactly | core/entanglement.py:322-396 | a rival of genuine salts is named if and only if no index is below the first record and some entry copies the envelope of a late salt |
| EntanglementRivals.CopyingRivalNamedExactly | core/entanglement.py:322-396 | a rival whose entries copy their envelopes is named if and only if it embeds a salt whose signed index is after the checkpoint |
| EntanglementRivals.LateSaltWorld | core/entanglement.py:73-119 | an honest run in which the origin is given a salt after its head was witnessed |
| EntanglementRivals.OneSaltEveryIndex | core/entanglement.py:322-396 | in that run a rival with that salt is named at the signed index and at no other, and the judge raises at every index below -2 |
| EntanglementRivals.RacedSaltExample | core/entanglement.py:81-119 | a salt whose issuance was overtaken by another record is valid and never verifies |
| Entanglement.ForeignWorld | core/entanglement.py:346-354 | an honest run in which another node's root is witnessed before the origin is given a salt |
| Entanglement.ForeignRootNamesTrueChain | core/entanglement.py:346-354 | with that other node's root the judge names the true chain |
| Release.LifecycleProjection | jjdai/release.py:1342-1365 | all positions that name the key's activation and its revocation, in order |
| Release.CheckKey | jjdai/release.py:1368-1439 | accepts exactly the keys whose declared positions resolve and are the first witnessed |
| Release.RecordAtExact | jjdai/release.py:1368-1439 | a declared position finds each record at its index and at its index from the end, and nothing elsewhere |
| Release.CheckLifecycleWitnessed | jjdai/release.py:1368-1439 | accepts exactly the registries all of whose keys are so witnessed |
| Release.CheckNotRevoked | jjdai/release.py:1520-1591 | raises exactly when a matching revocation is in the chain, with the code of the first one |
| Release.CountApprovals | jjdai/release.py:600-656 | the set-filling loop accepts exactly valid approvals with no key or device twice, and returns their sets |
| Release.VerifyAttestation | jjdai/release.py:581-688 | returns the declared control exactly for attestations that meet every rule at the position |
| Release.VerifyPublication | jjdai/release.py:1125-1194 | accepts exactly when lifecycle, revocation, chain, reference and attestation all hold, and returns the declared control |
| Release.ReleaseChain.Publish | jjdai/release.py:1067-1122 | appends one record and returns its publication exactly when the attestation verifies at the next position |
| Release.ReleaseChain.RevokeRelease | jjdai/release.py:1457-1517 | appends the signed revocation exactly when the key may sign it |
| ReleaseRuns.RegistryIsChainFunction | jjdai/release.py:1342-1439 | a key passes if and only if the registry states its first witnessed activation and its first witnessed revocation or none |
| ReleaseRuns.PassingRegistriesAgree | jjdai/release.py:1368-1439 | two registries passing on one chain agree on every shared key |
| ReleaseRuns.ValidityFixedAtPosition | jjdai/release.py:229-251 | later records never change whether a key is valid at an old position |
| ReleaseRuns.PublicationPositionIsReal | jjdai/release.py:1160-1194 | an accepted reference is a position of the chain, never one counted from its end |
| ReleaseRuns.PublicationPersists | jjdai/release.py:1125-1194 | a publication that verified verifies on every sound extension, under later key revocations, if and only if it is not revoked by name |
| ReleaseRuns.RevokedForever | jjdai/release.py:1520-1591 | after a matching revocation no registry, context or extension makes it verify |
| ReleaseRuns.PublishedVerifies | jjdai/release.py:1067-1194 | what publish returns is accepted at once with the same registry and context |
| ReleaseRuns.ReleasesAreSound | jjdai/release.py:1067-1122 | over every run each release at position i has approvals by two or more distinct keys on two or more distinct devices, none twice, each by a key first activated before i and not revoked at or before i; each signed body names this statement, one as builder and one as verifier |
| ReleaseExact.AttestationExact | jjdai/release.py:581-688 | with a passing registry an attestation verifies at a position if and only if each approval names this statement and is signed, in a registered role, device and principal, by a key live there; no key or device twice; both roles; the control counts them; and the outside facts hold |
| ReleaseExact.ForeignApprovalNeverCounts | jjdai/release.py:600-609 | an approval that names another statement makes the attestation fail under any registry, position and context |
| ReleaseExact.PublishExact | jjdai/release.py:1067-1122 | publish succeeds if and only if the context is complete and clear, the chain sound, the registry passing, the statement not revoked by name and the attestation endorsed at the next position |
| ReleaseExact.ReleasesAreEndorsed | jjdai/release.py:1067-1122 | over every run each release was endorsed at the position it took under a registry passing on the chain below |
| ReleaseExact.PublicationExact | jjdai/release.py:1125-1194 | a publication verifies if and only if chain and registry pass, it is not revoked by name, and its reference is a record of this attestation endorsed at that position |
| ReleaseExact.PublishedRecord | jjdai/release.py:1067-1122 | the record that publish adds keeps the chain sound and attests the publication it returns |
| ReleaseExact.RevocationTakesEffect | jjdai/release.py:1457-1591 | after a revocation of a hash no publication of a statement with it verifies on any extension; the record carries the signed claim, and a reader that resolves it is told the release is revoked |
| ReleaseExact.RevokeExact | jjdai/release.py:1457-1517 | revoke_release succeeds if and only if a reason is stated and the signer is the registered, witnessed key, live on a sound chain |
| Anchoring.AnchorScheduler.constructor | core/anchoring.py:277-299 | the ratchets are rebuilt from the node's own receipts |
| Anchoring.AnchorScheduler.SubmitAll | core/anchoring.py:473-491 | receipts and marks after a submission loop that a backend may end by raising |
| Anchoring.AnchorScheduler.AnchorNow | core/anchoring.py:443-536 | the round while others append: skip, retry of those behind, or full round, when a record is appended or its append raises, and the report |
| Anchoring.RatchetMovesUp | core/anchoring.py:477-491 | a receipt only raises its own backend's marks and keeps covered <= custody <= attempted |
| Anchoring.RunsStayOrderedAndRebuildable | core/anchoring.py:274-299 | over every run with restarts covered <= custody <= attempted <= chain length, and a restart finds exactly the live marks |
| Anchoring.RoundPays | core/anchoring.py:443-536 | every ANCHOR_EXTERNAL record is paid for by the pending news or by a backend leaving the behind set |
| Anchoring.SelfAnchoringIsBounded | core/anchoring.py:315-536 | with no new substantive record any number of rounds and restarts appends at most 1 + the number of required backends |
| Anchoring.ReportTellsTheRound | core/anchoring.py:463-536 | the report says anchored exactly when a record was appended, skipped only when nothing changed, and names the backends behind on the chain left |
| Anchoring.HealthyRoundSettles | core/anchoring.py:443-536 | a round that acts, with backends that keep what they get, leaves nobody behind and records news once, and every later round then changes nothing |
| Anchoring.LostAnchorRecordStaysLost | core/anchoring.py:492-525 | if the append raises after a round whose backends keep what they get, no later round changes anything, so its record is not written |
| AnchoringExact.MarksExact | core/anchoring.py:284-299 | after a restart, and so after any run, a backend's three marks reach exactly as far as the node's own receipts say it was asked, holds and has confirmed |
| AnchoringExact.SuccessExact | core/anchoring.py:284-299 | the success time of a backend is that of its last confirming receipt, and none without one |
| AnchoringExact.RestartExact | core/anchoring.py:274-299 | a restart keeps chain and receipts, reads the marks back and may retry at once |
| AnchoringExact.BehindExact | core/anchoring.py:315-335 | a backend is behind if and only if it is required and some substantive record is in no receipt of its that holds it |
| AnchoringExact.UnsentExact | core/anchoring.py:443-457 | there is news if and only if some substantive record was sent to no backend |
| AnchoringExact.RoundExact | core/anchoring.py:443-536 | a round asks all backends with news, those behind without it once the retry time has come, and nobody otherwise; one receipt for each asked up to one that raises, the record, and the next retry time |
| AnchoringExact.RetryClock | core/anchoring.py:443-536 | after a round at t that leaves someone behind and no news, a round before t + backoff changes nothing and reports skipped; from then on exactly those behind are asked, with one more receipt each up to one that raises |
| AnchoringExact.ClockMattersOnlyForRetries | core/anchoring.py:443-472 | with no news and nobody behind no clock makes it act; with news every clock makes it ask every backend |
| KeyOrder.Utf16Injective | jjdai/canonical.py:71-73 | distinct keys have distinct UTF-16 sort keys |
| KeyOrder.UnitsExact | jjdai/canonical.py:71-73 | a character is its own unit or a high and a low surrogate carrying ten bits each |
| KeyOrder.LexExact | jjdai/canonical.py:71-93 | below means: after a common beginning it ends or has the smaller unit |
| KeyOrder.AstralBeforeLast | jjdai/canonical.py:71-93 | a character outside the first plane sorts before U+FFFF |
| KeyOrder.SortIncreasing | jjdai/canonical.py:71-93 | sorted fields are strictly increasing in UTF-16 code units |
| KeyOrder.SortForgetsOrder | jjdai/canonical.py:85-91 | the sorted fields do not depend on insertion order |
| JsonText.EscapeString | jjdai/canonical.py:45-68 | the output-list loop quotes and escapes every character |
| JsonText.EscapeTable | jjdai/canonical.py:45-68 | the text of every character: the five short forms, the lower-case four-digit form, quote and backslash, and itself otherwise |
| JsonText.QuoteExact | jjdai/canonical.py:45-68 | a literal is the texts of its characters in order inside one pair of quotes |
| JsonText.CharsReadBack | jjdai/canonical.py:45-68 | an escaped string reads back, whatever follows it |
| JsonText.IntReadsBack | jjdai/canonical.py:22-42 | an integer's text reads back before anything but a digit |
| JsonText.DecimalIsShort | jjdai/canonical.py:22-42 | no leading zero |
| Canonical.SerializeIsPrint | jjdai/canonical.py:76-93 | serializing is printing the value with every dictionary sorted |
| Canonical.ValueReadsBack | jjdai/canonical.py:76-93 | a printed value reads back exactly, whatever follows it |
| Canonical.CanonicalReadsBack | jjdai/canonical.py:76-98 | the reader recovers the sorted value from the canonical text |
| Canonical.CanonicalUnambiguous | jjdai/canonical.py:76-98 | canonical texts are equal if and only if the values are the same up to insertion order |
| Canonical.NormalFormIsSorted | jjdai/canonical.py:85-91 | dictionaries come out in strictly increasing key order |
| Canonical.CanonicalExample | jjdai/canonical.py:76-98 | the exact text of a dictionary with a list, a string and the literals |
| Containment.ContainmentLedger.SettleCase | core/containment.py:372-391 | release, corroboration or neither, and the state reported |
| Containment.ContainmentLedger.ContainBeing | core/containment.py:266-279 | the step of opening a case, refused while one is held |
| Containment.ContainmentLedger.VerifyTrigger | core/containment.py:284-296 | the step of recording a finding and settling |
| Containment.ContainmentLedger.RaiseChallenge | core/containment.py:298-307 | the step of recording a challenge |
| Containment.ContainmentLedger.Resolve | core/containment.py:309-323 | the step of resolving a challenge and settling |
| Containment.ContainmentLedger.Expire | core/containment.py:325-338 | the step of releasing an unconfirmed low-trust containment after its deadline |
| Containment.ContainmentLedger.Reopen | core/containment.py:340-349 | the step of reopening verification |
| Containment.ContainmentLedger.Propose | core/containment.py:351-367 | the step of handing a corroborated, unchallenged case to the guardians |
| Containment.RunsKeepInvariant | core/containment.py:266-488 | over every run of calls that do not raise: no held false finding, quorums behind corroborated and pending cases, every journal event justified by the replayed state before it, replay equal to the live cases, slashes equal to the unsupported releases with their multipliers |
| Containment.SupportersAreFresh | core/containment.py:421-469 | the counted supporters are exactly the distinct qualified supporting nodes since the last contain or rehabilitate |
| Containment.LowTrustIsUnconfirmed | core/containment.py:399-405 | a slash is harder exactly for an unqualified initiator whose case no qualified node confirmed since it was opened |
| Containment.CorroborationIsPrompt | core/containment.py:372-391 | after every run a contained case with its quorum is held back by a standing challenge alone, if and only if the quorum is at least one |
| Containment.ExpiresExactly | core/containment.py:325-338 | a call to expire releases a case if and only if it is contained, of low trust, unsupported, and its deadline has come, and slashes nobody |
| Containment.ContainedAtIsLast | core/containment.py:421-436 | the deadline counts from the event that last opened the case |
| ContainmentExact.CaseIsHistory | core/containment.py:421-469 | a replayed case is what its latest events say: order, state, which challenges are on it and stand, and each node's finding |
| ContainmentExact.SeveredExactly | core/containment.py:242-261 | after any run the governor severs a scope if and only if it is not protected and the being was contained and not released since |
| ContainmentExact.ExecutiveIsNotProtected | core/containment.py:134-152 | no executive scope is a protected one |
| ContainmentExact.ContainExact | core/containment.py:266-279 | refused while held; otherwise a fresh case with the order's own fields |
| ContainmentExact.VerifyExact | core/containment.py:284-407 | an unsupported finding on an open case releases it and slashes its initiator; a supported one corroborates if and only if it completes the quorum with no challenge standing; nothing else follows |
| ContainmentExact.ChallengeExact | core/containment.py:298-307 | a challenge stands at once and leaves the state alone |
| ContainmentExact.ResolveExact | core/containment.py:309-323 | a resolution releases nobody and corroborates if and only if the quorum is there and no challenge stands any more |
| ContainmentExact.RehabilitateExact | core/containment.py:340-349 | findings and supporters are dropped, challenges stay, and the case is contained |
| ContainmentExact.ProposeExact | core/containment.py:351-367 | handed over if and only if corroborated with no standing challenge |
| Containment.ReportedState | core/containment.py:372-391 | the reported state is the ledger's, except for a corroborated case that the call neither releases nor frees of its standing challenges |
| Containment.ReportedStateExample | core/containment.py:372-391 | contain, support, challenge, support: the answer is CONTAINED and the case is CORROBORATED |
| ContainmentAudit.VerifyJournalAgainstChain | core/containment.py:508-523 | accepts exactly when the chain's bindings are the journal's, in order |
| ContainmentAudit.AuditPinsJournal | core/containment.py:508-523 | a chain accepts at most one journal |
| ContainmentAudit.AuditAcceptsExactly | core/containment.py:471-523 | over every run with raising writes and restarts, a journal passes against the chain if and only if it is the events that reached the chain and none of those came after a failed journal write of its process or after an event had missed the chain |
| ContainmentAudit.JournalPassesIff | core/containment.py:471-523 | the journal on disk passes if and only if no event of it missed the chain and none was chained after a failed journal write without a restart between |
| ContainmentAudit.LostEventExample | core/containment.py:471-485 | one failed journal write and one more event: the journal left fails the audit |
| ContainmentAudit.UnwitnessedEventExample | core/containment.py:471-485 | one witness append that raises: the journal on disk fails the audit and the empty journal passes |
| ContainmentFaults.AttemptsKeepSturdy | core/containment.py:266-488 | in one process, over every run of calls that may raise, memory replays to the live cases, every event was justified, quorums stand and every slash, with its multiplier, is one that an unsupported release calls for |
| ContainmentFaults.RaiseKeepsInvariantIff | core/containment.py:284-407 | a raising call keeps the whole invariant if and only if it does not record an unsupported finding on an open case and raise before the release or, with a registry, before its slash |
| ContainmentFaults.NextSettlementRepairs | core/containment.py:284-391 | a finding left unsettled is settled by the next verification, resolution or rehabilitation of that case |
| ContainmentFaults.OtherCallsLeaveIt | core/containment.py:266-407 | calls on other beings leave the case unchanged |
| ContainmentFaults.MissedSlashStays | core/containment.py:393-407 | the number of missed slashes is unchanged by any later calls |
| ContainmentFaults.FalseFindingProposedExample | core/containment.py:351-367 | after a raising verification a case with an unsupported finding is proposed for erasure |
| ContainmentFaults.BootsIffOpened | core/containment.py:219-226 | a journal is replayed at boot if and only if every event in it follows the one that opened its case |
| ContainmentFaults.LostOpeningExample | core/containment.py:219-226 | a journal that lost the opening of a case cannot be booted from |
| ContainmentFaults.LostSupportExample | core/containment.py:219-226 | a journal that lost a supporting finding boots into a case corroborated by nobody |
| RagStore.Store.Add | core/rag_store.py:73-84 | a chunk is appended under the next id with the hash of its text |
| RagStore.RowsAreTheNamespace | core/rag_store.py:87-92 | the leaves are exactly the namespace's chunks, each once, in id order |
| RagStore.Store.NamespaceRoot | core/rag_store.py:94-95 | the root over those leaves |
| RagStore.Store.Prove | core/rag_store.py:97-107 | the search finds the chunk's rank and its path, and nothing for a chunk of another namespace |
| RagStore.ProofVerifies | core/rag_store.py:97-114 | every proof handed out verifies against the namespace root |
| RagStore.ProvenLeafIsHeld | core/rag_store.py:109-114 | whatever verifies against a namespace root is the hash of a chunk there |
| PlaneH.MadeProposalVerifies | core/plane_h.py:74-171 | a made proposal verifies exactly with its own text and fields in range |
| PlaneH.MadeExact | core/plane_h.py:74-125 | made if and only if the operation is known, with text unless it redacts and a target unless it adds; it carries what it was given |
| PlaneH.EnvelopeNeedsItsText | core/plane_h.py:128-171 | an add or supersede envelope verifies with its text and with nothing else |
| PlaneH.ForgottenTextExample | core/plane_h.py:128-171 | a made proposal passes with its text and fails without it |
| PlaneHExact.VerifiesIff | core/plane_h.py:128-171 | a proposal verifies if and only if its fields are in range, it shows the text whose hash was signed, the carrying node's key signed it and so did the key of the being it names |
| PlaneH.GovernedPlaneH.ApplyAdd | core/plane_h.py:293-302 | one chunk and one metadata row of version 1 |
| PlaneH.GovernedPlaneH.ApplySupersede | core/plane_h.py:304-331 | refused or linked both ways with the next version |
| PlaneH.GovernedPlaneH.ApplyRedact | core/plane_h.py:333-353 | refused or the text removed and the envelope kept |
| PlaneH.GovernedPlaneH.Apply | core/plane_h.py:230-278 | tables and witness record move together or not at all, and the reply says which |
| PlaneHExact.AnswerExact | core/plane_h.py:230-278 | each answer of apply is given if and only if its reason holds and no earlier one does; it succeeds in every other case |
| PlaneHExact.AcceptedTextIsStored | core/plane_h.py:293-331 | an accepted text becomes one chunk under the next id with the proposal's fields and version, and no other row changes but the superseded one |
| PlaneHExact.AcceptedRedactionRemoves | core/plane_h.py:333-353 | an accepted redaction removes the target's text, keeps its hash, and changes nothing else |
| PlaneHExact.WitnessedWasGranted | core/plane_h.py:230-278 | behind every witnessed record of any run is a proposal signed by node and being, outside reserved namespaces, and granted by the policy in force when it came |
| PlaneHRuns.RunsKeepInvariant | core/plane_h.py:230-353 | over every run links are mutually inverse, increasing and version-counting inside one document, leaves are what authors signed, text goes only under a signed redaction, and nothing set is undone |
| PlaneHRuns.LineageIsLinear | core/plane_h.py:304-331 | origin and version name one chunk |
| PlaneHRuns.OneHead | core/plane_h.py:304-331 | a lineage has at most one unsuperseded chunk, and it is its newest version |
| PlaneHEvidence.RedactionKeepsProofs | core/plane_h.py:333-353 | redaction leaves every namespace root and every inclusion proof exactly as it was |
| PlaneHEvidence.ReplyProves | core/plane_h.py:250-262 | the proof in the reply verifies against the root now in force |
| PlaneHEvidence.NothingUnwitnessed | core/plane_h.py:230-278 | no success, no change; success with a witness means exactly one more record |
| PlaneHEvidence.WitnessedLeafIsHeld | core/plane_h.py:261-274 | after any run whatever verifies against any root ever witnessed is the hash of a chunk still held in its namespace |
| PlaneHEvidence.MetaIsWitnessed | core/plane_h.py:234-241 | over every run replaying the witness log gives the metadata table |
| PlaneHEvidence.ReplayRefused | core/plane_h.py:304-345 | an applied supersede or redact is refused after every further run; an add is not |
| PlaneHEvidence.LostCommitParts | core/plane_h.py:248-278 | after a lost commit, log and metadata agree if and only if the proposal was not admitted or its operation was refused |
| PlaneHEvidence.LostCommitExample | core/plane_h.py:248-278 | the first proposal to a fresh store, its commit lost: witnessed as chunk 1, and no chunk exists |
| PlaneHRetrieval.RankedExact | core/rag_store.py:125-140 | the candidates are exactly the chunks of the namespace with text and a shared token, by falling score and rising id |
| PlaneHRetrieval.FilterLoop | core/plane_h.py:392-412 | the first k visible candidates in order, and one when k is zero or less |
| PlaneHRetrieval.Retrieve | core/plane_h.py:379-412 | refused for an unknown access level or a reserved namespace; otherwise the first k visible of the shortlist of four times k candidates, twelve when k is zero |
| PlaneHRetrieval.VisibleExact | core/plane_h.py:392-412 | visible means governed, unredacted, not superseded, at a level the reader may read (by cases) and not past its retention limit |
| PlaneHRetrieval.RetrievedExactly | core/plane_h.py:379-412 | an id is returned if and only if it is on the shortlist, readable, and fewer than k readable ones of the shortlist outrank it; the result is in rank order |
| PlaneHRetrieval.ShortlistIsEnoughIff | core/plane_h.py:392-412 | the result is that of filtering every candidate if and only if the shortlist holds enough visible ones or all of them |
| PlaneHRetrieval.ReturnedMatches | core/plane_h.py:379-412 | what is returned matches the query in its namespace and is visible |
| PlaneHRetrieval.VisibleIsCurrent | core/plane_h.py:392-412 | what is visible is the newest version, carries the signed text and a verifying proof |
| WasmImports.Uleb | kernel/wasm_pure.py:121-138 | the accumulator loop reads a LEB128 number or refuses it after ten bytes |
| WasmImports.ParseImports | kernel/wasm_pure.py:152-236 | on every byte string the section loop ends, in range, with the imports or a refusal |
| WasmNames.NamesAreTexts | kernel/wasm_pure.py:140-149 | the bytes of a name are accepted if and only if they encode a text of Unicode scalar values |
| WasmEncoding.NumberReadsBack | kernel/wasm_pure.py:121-138 | every encoding of a number in up to ten bytes, padded or not, reads back as it |
| WasmEncoding.ModuleReadsBack | kernel/wasm_pure.py:152-236 | every emitted module reads back as exactly its imports, in order, whatever other sections and trailing bytes it has |
| WasmEncoding.ReaderAcceptsEncodings | kernel/wasm_pure.py:152-236 | accepted with every import count inside its section if and only if the bytes are an encoding |
| WasmEncoding.SpilledCountImportsNothing | kernel/wasm_pure.py:180-191 | a count outside its section is read as no imports when it is zero and refused otherwise |
| WasmEncoding.SpilledCountExample | kernel/wasm_pure.py:152-160 | a module with an empty import section is read as importing nothing, and is no encoding |
| WasmEncoding.CheckPureImports | kernel/wasm_pure.py:239-269 | accepts exactly readable modules all of whose imports are allowlisted functions, else names the first that is not |
| WasmEncoding.PureExact | kernel/wasm_pure.py:59-69 | three functions of one module and nothing else |
| WasmEncoding.CheckEmitted | kernel/wasm_pure.py:239-269 | an emitted module is accepted if and only if all it declares is allowlisted functions |

## Left out

- Elliptic-curve arithmetic, key files and hash internals: hashes and signatures are ideal.
- HTTP, TLS, sqlite, fsync and file bytes: a journal is a sequence and a transaction is a snapshot restored or kept.
- Reason strings and malformed dictionaries: an envelope has its fields with their types; a refusal has a constructor and no text.
- The 64-digit form of proof elements: a sibling is any digest.
- Floating-point text in `_es6_number`, and the UTF-8 bytes of the canonical text: the text is a sequence of Unicode scalar values.
- Acknowledgements, quorum receipts and `reconcile` in core/replication.py: set counting over the same envelopes.
- `issuance_inclusion` and its verifier in core/entanglement.py: one inclusion proof beside fields already modelled.
- `load_registry`, the schema checks of statements and approvals, and the external and debt checks of jjdai/release.py: a verdict carried by the statement, or one predicate of statement, approvals and public keys.
- `toolset_authorizer` and the annotation functions of jjdai/release.py: they call `verify_publication` and format its answer.
- WitnessLog.WitnessChain.Append: does not model the vocabulary, reserve and depth checks, which are one admitted flag of the call; they are tables and a bounded scan.
- The reputation weights of core/registry.py: the qualification of a node is an input of each call.
- Case history, resolution times and the reason text of core/containment.py: fields that are only reported.
- Status reports of every component, and `_last_failure` of the anchor scheduler.
- The number of segments a node pushes in one cycle (node/daemon.py:829): CatchUp asks until nothing is missing.
- Token extraction in core/rag_store.py: the score of a text is any function.
- The prefix rule for reserved namespaces: a set of names.
- Release.VerifyAttestation: does not state which error code is raised first.
- Release.VerifyPublication: does not state which error code is raised first.
- Anchoring.AnchorScheduler.AnchorNow: the report has no receipts and no coverage figure, which the state holds.
- Anchoring.AnchorScheduler.SubmitAll: a receipt is taken to name the node, backend and count it was asked for, as those of all four backends in the repository do.
- Containment.ContainmentLedger.SettleCase: every write succeeds; calls whose writes raise are PerformFaulty in ContainmentFaults.
- Containment.RunsKeepInvariant: every write succeeds; what raising writes leave of it is stated in ContainmentFaults.
- PlaneH.GovernedPlaneH.Apply: the commit itself succeeds; a commit that is lost is CommitLost.
