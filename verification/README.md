# Trust-based task offloading, verified

Constrained IoT nodes hand tasks to edge nodes that they trust. This project models the parts of the
firmware and of the host code on which that trust rests, and proves what they promise:

- **Hidden Markov trust filter** (`HmmPaths`, `HmmForward`, `HmmUpdate`, `HmmMeasure`, `InteractionHistory`).
  The scaled forward pass over a ring of recent interactions, and the online Bayes update, compute what the
  plain sum over all hidden-state paths defines, and what they compute is a probability measure.
- **Keystore protocol** (`Keystore`, `KeystoreSafety`, `KeystoreAcceptance`, `KeystoreLoss`,
  `KeystoreProgress`, `KeystoreNode`). Certificates, received trust and signature verification interleave over
  shared pools and one shared buffer. The steps are a state machine in which following a pointer to a freed
  block or failing an assert is a fault; an invariant of every run excludes faults, and keeps every list entry
  allocated; where no completion was lost the steps can always finish everything that is waiting, and however
  they do so with working hardware, exactly the queued certificates that the root signed become verified and
  exactly the genuine trust is merged. Walks over the lists themselves are total functions, and whether the
  eviction walk may go on from a block it has just freed is a parameter of the model, not a fault.
- **Certificates** (`Cbor`, `Certificate`). The encoder and decoder of the nodes and those of the issuer.
- **Edge table and offloading** (`EdgeTable`, `Offload`, `OffloadEffects`, `OffloadNode`). Two pools, nested
  lists, quotas, eviction, the MQTT handlers, the cached `running` flag of each application, and exactly what
  each message puts on offer and takes off it.
- **Choosing an edge** (`Choose`, `Proportional`, `RandomHelpers`, `BasicTrust`, `EdgePing`). The policies,
  their random draws, the Beta-count trust model they rank by, and the round robin of pings.
- **Delivering results** (`Base64`, `Transfer`, `Delivery`, `TransferNode`). The host cuts a result into serial
  lines, the edge reassembles it into CoAP blocks, under hard line and buffer bounds.
- **Streaming statistics** (`Gaussian`), **flashing** (`Flash`) and **belief timelines** (`Timeline`).

Code that mutates state is a class or a method over arrays, proved against functions on values; the
theorems are lemmas about those functions. Floating-point numbers are `real`. `RealSums` holds sums and
products shared by the numeric modules; products are named there so that nonlinear arithmetic stays local.

Where code and comments disagree the code is followed. Six places behave differently from what a reader
may expect, and each is stated exactly:

- `hmm_observation_probability` multiplies all entries of an uninitialised array, so its result is right for
  every stack content if and only if the ring is full or the probability is zero (`HmmForward.ExactIffFull`),
  which for a proper model means if and only if the ring is full (`HmmUpdate.ProperExactIffFull`,
  `HmmUpdate.EmptyHistoryIsUndefined`).
- The `running` flag can miss an edge that a certificate reactivates (`Offload.ConverseFailsInARun`). Flags
  that agree with the table still do after a message if and only if it brings no such certificate, or removes
  the one capability that was missed (`Offload.StepAgreesIff`, `Offload.RunAgreesIff`).
- Two kinds of result chunks that the host sends do not arrive. A chunk of exactly 256 bytes is within the
  host's limit, but base64 decoding asks for whole blocks: its last line is acknowledged and lost, nothing is
  submitted, and 207 bytes stay in the edge's buffer, where they corrupt the next chunk
  (`Delivery.Chunk256IsLost`, `Delivery.NextIsCorrupted`). And the host sets aside six characters for the two
  packet counters, so from chunk 100 on (counting from 0) the lines of a long chunk exceed the host's limit; if
  they are truncated there, of 255 bytes only the last 45 are submitted (`Delivery.LateChunkIsBroken`). A chunk sent to an
  idle edge is submitted intact with nothing left over if and only if it has at most 255 bytes and, with the
  lengths of both counters in digits, `25 + |i| + |n| + |base64 of its first piece|` is at most the number of
  characters of a line that the serial driver delivers (`Delivery.ChunkSurvivesIff`); a whole result is if and
  only if this holds of every chunk sent (`Delivery.ResultSurvivesIff`). Up to 100 chunks, over a line that
  takes the host's 127 characters with newline, only the 255 bytes matter (`Delivery.SmallResultSurvivesIff`).
- A completion event that does not fit the event queue is lost for good: after one for a certificate no
  certificate is ever verified again, and one for received trust leaks its receive item, its request and its
  pin (`KeystoreLoss.LostForever`). Nothing is lost if and only if every completion is posted
  (`KeystoreLoss.FirmwareLossIff`), and exactly then everything waiting can still be finished
  (`KeystoreProgress.DrainsIff`).
- Proportional choice returns nothing for the few raw values left over by truncation, the largest among them
  always (`Proportional.SharesFillRange`, `Proportional.LargestIsUncovered`).
- The certificate buffer macros leave one byte for the device class: they bound every class below 24, and
  the exact condition in general is that the four integers take at most 16 bytes (`Certificate.LengthBounds`,
  `Certificate.TbsFitsIff`).

`dafny verify dfyconfig.toml` checks the whole project.

## Model

| member | source | states |
|---|---|---|
| InteractionHistory.Ring.Push | wsn/common/trust/interaction-history.c:12-26 | appends, dropping the oldest element of a full ring; index arithmetic stays in bounds |
| InteractionHistory.Ring.Iter | wsn/common/trust/interaction-history.c:28-36 | the cursor of the oldest element, or null when empty |
| InteractionHistory.Ring.Next | wsn/common/trust/interaction-history.c:38-56 | the cursor of element k+1, null after the last: iteration yields exactly the contents in order |
| InteractionHistory.PushesKeepLast | wsn/common/trust/interaction-history.c:12-26 | any run of pushes keeps exactly the last SIZE values, in order |
| HmmPaths.AllPathsComplete | wsn/common/trust/hmm.c:78-168 | the reference enumerates every hidden-state path exactly once |
| HmmPaths.ForwardIsPathSum | wsn/common/trust/hmm.c:78-168 | the unscaled forward vector sums to the probability summed over all paths |
| HmmForward.ObservationProbability | wsn/common/trust/hmm.c:78-168 | with a full ring the product of scaling factors is the path-sum probability of the history and then the observation; otherwise exactly which stack contents enter the result |
| HmmForward.ProbabilityAfterRun | wsn/common/trust/hmm.c:78-168 | for every run of pushes that fills the ring, the result is the path-sum probability of the last SIZE observations and then the new one |
| HmmForward.ExactIffFull | wsn/common/trust/hmm.c:157-167 | the result is independent of the stack if and only if the ring is full or the probability is zero |
| HmmMeasure.ContinuationsAddUp | wsn/common/trust/hmm.c:78-168 | the probabilities of a history followed by each possible observation add up to that of the history, and to one at the start |
| HmmMeasure.VisibleIsMarkovChain | wsn/common/trust/hmm.c:95-144 | where every observation gives its state away, a history has the probability of a Markov chain: the initial one of its first state, then a transition per step |
| HmmUpdate.ProperExactIffFull | wsn/common/trust/hmm.c:157-167 | for a model of positive emissions the result is independent of the stack if and only if the ring is full |
| HmmUpdate.EmptyHistoryIsUndefined | wsn/common/trust/hmm.c:78-168 | on an empty history some stack content always gives a wrong result |
| HmmUpdate.Hmm.OneObservationProbability | wsn/common/trust/hmm.c:66-76 | the path-sum probability of a single observation |
| HmmUpdate.Hmm.Update | wsn/common/trust/hmm.c:170-222 | one filtering step, normalised, replaces the stored distribution; the result is not a number if and only if the total is zero |
| HmmUpdate.RunUpdates | wsn/common/trust/hmm.c:170-222 | after any run of updates the stored vector is the normalised forward vector and a distribution |
| HmmUpdate.UpdatesAreForward | wsn/common/trust/hmm.c:170-222 | normalising at every step equals normalising once, and no step divides by zero |
| HmmUpdate.OnlyLastObservation | wsn/common/trust/hmm.c:23-31 | with equal transition rows the filter depends only on the last observation |
| HmmUpdate.DefaultModel | wsn/common/trust/hmm.c:23-64 | the default model is a proper HMM whose transition rows are all the initial distribution 0.8 and 0.2; correct results have probability 0.9 and 0.1, and the other observations share the rest equally |
| Cbor.HeadRoundTrip | wsn/common/crypto/certificate.c:42-70 | a CBOR head (section 3 of RFC 8949) parses back to its major type and argument |
| Cbor.ToBytesAt | wsn/common/crypto/certificate.c:53-70 | byte i of the k bytes of an integer has weight 256 to the power k - 1 - i: network byte order |
| Cbor.HeadBytes | wsn/common/crypto/certificate.c:53-70 | the first byte and the length of a head for every argument, and each byte of the argument |
| Cbor.HeadIsShortest | wsn/common/crypto/certificate.c:53-70 | no other head with the same argument is shorter |
| Cbor.HeadReadIff | wsn/common/crypto/certificate.c:72-80 | a head is read if and only if its additional information is at most 27 and the data does not end within it, and reads as its bytes say |
| Cbor.LoadsDumps | common/certificate.py:112-116 | loading undoes dumping for every encodable value, whatever follows |
| Certificate.Encoder.PutTbs | wsn/common/crypto/certificate.c:53-70 | the cursor writes exactly the TBS bytes, and reports failure if and only if they do not fit |
| Certificate.DecodeEncode | wsn/common/crypto/certificate.c:72-130 | decoding undoes encoding for every valid certificate, whatever follows |
| Certificate.DecodedIsValid | wsn/common/crypto/certificate.c:72-130 | whatever decodes has field widths and device class in range, also where the unchecked entry into the outer array fails and the cursor stands on stack content |
| Certificate.DecodedIsLoaded | wsn/common/crypto/certificate.c:72-130 | whatever array a node decodes as a certificate, a generic decoder reads as the value the issuer builds for it, with the same rest, and the issuer takes it for the same certificate |
| Certificate.TagsReadIff | wsn/common/crypto/certificate.c:95-95 | exactly which bytes behind the head of the tags are read as a device class |
| Certificate.TbsInjective | wsn/common/crypto/certificate.c:53-70 | different TBS contents never share bytes, even as prefixes |
| Certificate.LengthBounds | wsn/common/crypto/certificate.h:16-30 | encoded lengths never exceed the declared macros for device classes below 24 |
| Certificate.TbsFitsIff | wsn/common/crypto/certificate.h:16-24 | for any field contents the TBS part fits its macro if and only if its four integers take at most 16 bytes |
| Certificate.EncodingLayout | wsn/common/crypto/certificate.c:53-70 | the encoding written out, with the literal bytes of every head but those of the four integers |
| Certificate.IssuerAgreesTbs | common/certificate.py:39-49 | the issuer's TBS bytes are the bytes the nodes encode |
| Certificate.IssuerAgrees | common/certificate.py:99-112 | the issuer's whole certificate is byte for byte what the nodes encode |
| Certificate.ReencodingMatchesSigned | wsn/common/crypto/keystore.c:415-467 | decoding the issuer's bytes and re-encoding the TBS part gives exactly the bytes that were signed |
| Certificate.IssuerDecodesNodes | common/certificate.py:114-127 | the issuer's decoder returns the certificate a node encoded |
| KeystoreNode.Node.FindKey | wsn/common/crypto/keystore.c:44-57 | the first verified key with this subject, whichever list is asked for |
| KeystoreNode.Node.FreeUpSpace | wsn/common/crypto/keystore.c:135-163 | the eviction loop, under either convention of the list and pool library |
| KeystoreNode.Node.AddCert | wsn/common/crypto/keystore.c:165-232 | a new certificate is queued in a free or freed block, or rejected with nothing changed but evictions |
| KeystoreNode.Node.UnpinKey | wsn/common/crypto/keystore.c:119-128 | the assert on the pin count holds and the count drops by one |
| KeystoreNode.Node.OnPoll | wsn/common/crypto/keystore.c:415-467 | the head of the queue is encoded into the shared buffer and one verification is requested, or it is dropped |
| KeystoreNode.Node.OnTrust | wsn/node/trust/trust.c:161-230 | a receive item, a pin and a verification request are taken together or not at all |
| KeystoreNode.Node.OnTake | wsn/common/crypto/crypto-support.c:140-160 | the verifier takes the oldest request |
| KeystoreNode.Node.OnFinish | wsn/common/crypto/crypto-support.c:140-170 | the result is that of the key and bytes the request points to, and the completion may be lost |
| KeystoreNode.Node.OnDeliver | wsn/common/crypto/keystore.c:631-691 | a completion reaches the trust process or the keystore, which may be busy with a key exchange |
| KeystoreNode.Node.ContinueTrust | wsn/node/trust/trust.c:232-258 | trust with a good signature is merged; the receive item and its request are freed and its key unpinned |
| KeystoreNode.Node.ContinueKey | wsn/common/crypto/keystore.c:469-503 | the item moves to the verified list and is pinned for the exchange, or is freed |
| KeystoreNode.Node.OnEcdhDone | wsn/common/crypto/keystore.c:652-682 | the exchange ends and its pin is released |
| KeystoreNode.Node.Execute | wsn/common/crypto/keystore.c:631-691 | from any reachable state every step completes without fault, is the specified step and keeps the invariant |
| KeystoreSafety.FreeUpEvicts | wsn/common/crypto/keystore.c:135-163 | eviction removes only unpinned keys other than the root's, and keeps lists and pool equal |
| KeystoreSafety.StepKeeps | wsn/common/crypto/keystore.c:631-691 | every step from a state with the invariant succeeds and keeps it |
| KeystoreSafety.RunIsSafe | wsn/common/crypto/keystore.c:608-691 | over every interleaving no assert fails, no pointer of a request leads to a freed block, and pool blocks are the disjoint union of the two lists |
| KeystoreSafety.PinBound | wsn/common/crypto/keystore.c:110-128 | the pin count is the number of receive items holding the key plus one during its exchange, at most the pool size plus one |
| KeystoreSafety.VerifiedBySignature | wsn/common/crypto/keystore.c:469-503 | a key is verified only after the root key verified its own TBS encoding and signature |
| KeystoreSafety.EncodingAlwaysFits | wsn/common/crypto/keystore.c:415-440 | no stored certificate's encoding exceeds the shared buffer |
| KeystoreSafety.ProtectedKeysStay | wsn/common/crypto/keystore.c:135-163 | a pinned key and the root's key survive every step unchanged |
| KeystoreSafety.RootStays | wsn/common/crypto/keystore.c:135-163 | once verified the root never leaves, however the run continues |
| KeystoreSafety.BufferUnchanged | wsn/common/crypto/keystore.c:415-503 | until its completion is delivered a verification keeps its buffer, its item and its place |
| KeystoreSafety.OneVerificationInFlight | wsn/common/crypto/keystore.c:415-467 | two certificate verifications are never in flight together |
| KeystoreAcceptance.AddQueuesIff | wsn/common/crypto/keystore.c:165-232 | a received certificate is queued last if and only if its subject is not verified and a block is free or some unpinned key other than the root's can go |
| KeystoreAcceptance.FreeUpRemoves | wsn/common/crypto/keystore.c:135-163 | eviction removes the first such key of the list and no other, or all of them under one of the library conventions |
| KeystoreAcceptance.TrustTakenIff | wsn/node/trust/trust.c:161-230 | a message of a neighbour is taken, as the last request, if and only if its length is allowed, its sender is verified and both pools have room; otherwise nothing changes |
| KeystoreAcceptance.PollIff | wsn/common/crypto/keystore.c:415-467 | a poll of an idle keystore requests the verification of the head of the queue if and only if a request is free, and otherwise gives it up |
| KeystoreAcceptance.KeyAnswer | wsn/common/crypto/keystore.c:469-503 | a certificate under verification becomes verified and pinned if and only if the hardware works and the root signed it; otherwise it is freed |
| KeystoreAcceptance.TrustAnswer | wsn/node/trust/trust.c:232-258 | received trust is merged, in the name of its key's subject, if and only if the hardware works and its signature is good |
| KeystoreAcceptance.MergedBySignature | wsn/node/trust/trust.c:232-258 | over every run, all trust merged is signed under a certificate for its subject that the root signed |
| KeystoreAcceptance.StepKeepsDestiny | wsn/common/crypto/keystore.c:608-691 | no internal step of working hardware changes which certificates and which trust will be accepted |
| KeystoreAcceptance.GenuineIsAccepted | wsn/common/crypto/keystore.c:608-691 | whenever such steps, in any order, leave nothing to do, the verified keys are those verified before and the queued ones that the root signed and the verifier had not refused, and all genuine trust has been merged in order |
| KeystoreAcceptance.FirmwareAccepts | wsn/common/crypto/keystore.c:608-691 | after every run that lost no completion such a continuation exists |
| KeystoreAcceptance.RootIsAccepted | wsn/common/crypto/keystore.c:608-691 | from the start a node verifies its root certificate in four steps if and only if it is signed by itself |
| KeystoreLoss.LostForever | wsn/common/crypto/crypto-support.c:140-170 | a lost completion is final: the shared buffer stays in use and nothing is verified, or receive item, request and pin are never released |
| KeystoreLoss.FirmwareLossIff | wsn/common/crypto/crypto-support.c:140-170 | after a run every request is pending and every receive item has its request, if and only if every completion was posted |
| KeystoreProgress.Drains | wsn/common/crypto/keystore.c:608-691 | from every state with the invariants, the shared buffer in use only for a request, and nothing lost, some finite run of internal steps empties the queue and the request and receive pools and unpins every key |
| KeystoreProgress.DrainsIff | wsn/common/crypto/keystore.c:608-691 | after any run such a continuation exists if and only if every completion was posted |
| EdgeTable.AddEdgeKeeps | wsn/common/trust/edge-info.c:74-162 | adding an edge, with eviction, keeps pools, lists, addresses and quotas consistent |
| EdgeTable.RemoveEdgeKeeps | wsn/common/trust/edge-info.c:112-175 | removing an edge frees exactly its blocks |
| EdgeTable.AddCapKeeps | wsn/common/trust/edge-info.c:222-246 | a capability is added if and only if it is known or the quota allows, and the table stays consistent |
| EdgeTable.RemoveCapKeeps | wsn/common/trust/edge-info.c:248-258 | removing a capability keeps the table consistent |
| EdgeTable.EdgeListBound | wsn/common/trust/edge-info.c:16-20 | the edge list is never longer than its pool |
| EdgeTable.QuotaImpliesSpace | wsn/common/trust/edge-info.c:21-66 | once the quota check passes allocation cannot fail, so capability eviction is never reached |
| EdgeTable.AddEdgeOrder | wsn/common/trust/edge-info.c:74-162 | a new edge goes to the front, and of the others only the first inactive one goes, when the pool is full |
| OffloadEffects.AddEdgeIff | wsn/common/trust/edge-info.c:90-162 | an edge is added if and only if it is known, the pool is not full or some edge is inactive; every active edge is kept unchanged |
| OffloadEffects.CertificateEffect | wsn/common/trust/trust-common.c:64-133 | the sender's own certificate switches its edge on, adding it if there is room, with the capabilities it had; any other changes nothing |
| OffloadEffects.UnannounceEffect | wsn/common/trust/trust-common.c:149-226 | what is left of an edge that unannounces under each build option: off and offering nothing; all others unchanged |
| OffloadEffects.RemoveEffect | wsn/common/trust/trust-common.c:335-419 | exactly the named capability is switched off or removed, and the edge only goes with its last one in an aggressive build |
| OffloadEffects.StepOffers | wsn/common/trust/trust-common.c:64-419 | for every message, edge and capability, whether it is offered afterwards, in terms of the table before |
| OffloadEffects.RemovedIsGone | wsn/common/trust/trust-common.c:335-419 | a removed capability is no longer offered and, unless removal is disabled, no longer listed |
| OffloadEffects.AddedIsOfferedIff | wsn/common/trust/trust-common.c:228-333 | an active edge offers a capability it adds if and only if it listed it or its quota allows |
| OffloadEffects.OfferStaysIff | wsn/common/trust/trust-common.c:64-419 | what is offered stays so through a message if and only if that is not its withdrawal |
| OffloadEffects.OfferedUntilWithdrawn | wsn/common/trust/trust-common.c:64-419 | along every run, what is offered stays so until it is withdrawn |
| OffloadNode.Node.AddAddr | wsn/common/trust/edge-info.c:90-162 | edge_info_add, with its search, eviction and insertion, is the specified update |
| OffloadNode.Node.HasActiveCapability | wsn/common/trust/edge-info.c:323-341 | the two nested loops decide whether some active edge offers the active capability |
| OffloadNode.Node.Tell | wsn/applications/application-common.c:22-52 | the application's flag is recomputed from the table |
| OffloadNode.Node.AddCapability | wsn/common/trust/edge-info.c:222-246 | edge_info_capability_add is the specified update |
| OffloadNode.Node.OnCertificate | wsn/common/trust/trust-common.c:64-133 | a matching certificate adds and activates the edge |
| OffloadNode.Node.OnUnannounced | wsn/common/trust/trust-common.c:149-226 | every capability is switched off and its application told before anything is removed |
| OffloadNode.Node.OnAdd | wsn/common/trust/trust-common.c:228-333 | the capability add handler |
| OffloadNode.Node.OnRemove | wsn/common/trust/trust-common.c:335-419 | the capability remove handler |
| OffloadNode.Node.Handle | wsn/common/trust/trust-common.c:473-556 | every message leaves exactly the specified table and flags and keeps the invariant |
| Offload.StepKeeps | wsn/common/trust/trust-common.c:149-419 | every message keeps the table consistent and `running` justified |
| Offload.RunOk | wsn/common/trust/trust-common.c:149-419 | after every run a running application has an active edge with its active capability |
| Offload.CertificateAgreesIff | wsn/common/trust/trust-common.c:64-133 | flags that agree with the table still agree after a certificate, if and only if it does not reactivate the only edge offering a stopped application |
| Offload.OtherMessagesAgree | wsn/common/trust/trust-common.c:149-419 | messages without a certificate keep every flag equal to the table |
| Offload.StepAgreesIff | wsn/common/trust/trust-common.c:64-419 | flags that agree with the table still do after a message, if and only if it brings no certificate that lets an application miss its start, or removes the only capability missed |
| Offload.RunAgreesIff | wsn/common/trust/trust-common.c:64-419 | along a run every flag equals the table at every point, in both directions, if and only if no message fails that condition |
| Offload.ConverseFailsInARun | wsn/common/trust/trust-common.c:228-333 | four messages after which an edge offers a capability and its application does not run |
| Offload.ActiveEdgesStay | wsn/common/trust/edge-info.c:74-110 | an active edge survives a message if and only if that is not its own unannouncement, nor in an aggressive build the removal of its last capability |
| RandomHelpers.InRangeUnbiased | wsn/common/random-helpers.c:12-22 | the first accepted raw draw decides the result, which lies in the range |
| RandomHelpers.Unbiased | wsn/common/random-helpers.c:12-22 | every value of the range is produced by the same number, floor(RAND_MAX / n), of accepted raw values |
| Choose.RunningHasEligible | wsn/common/trust/edge-info.c:323-341 | a running application always has an eligible edge |
| Choose.ChooseFirst | wsn/common/trust/choose/fcfs/trust-choose.c:15-42 | the first eligible edge, none if and only if nothing is eligible |
| Choose.ChooseHighest | wsn/common/trust/choose/highest/trust-choose.c:17-56 | the eligible edge of highest trust above -1, the first on a tie; none if and only if no eligible edge exceeds -1, which for non-negative trust means nothing is eligible |
| Choose.Collect | wsn/common/trust/choose/random/trust-choose.c:18-44 | the unguarded candidate array never overflows and holds exactly the eligible edges |
| Choose.ChooseRandom | wsn/common/trust/choose/random/trust-choose.c:16-55 | the eligible edge selected by the first accepted draw |
| Choose.Compact | wsn/common/trust/choose/banded/trust-choose.c:87-101 | in-place filtering keeps exactly the entries at or above the floor, in order |
| Choose.ChooseBanded | wsn/common/trust/choose/banded/trust-choose.c:22-120 | the edge of the band selected by the first accepted draw |
| Choose.BandIsTopBand | wsn/common/trust/choose/banded/trust-choose.c:33-101 | the band is exactly the eligible edges within BAND_SIZE of every other, in list order, empty if and only if nothing is eligible |
| Choose.UniformChoice | wsn/common/random-helpers.c:12-22 | choosing among k distinct candidates returns each of them for exactly floor(RAND_MAX / k) raw values |
| Choose.RandomIsUniform | wsn/common/trust/choose/random/trust-choose.c:46-55 | each of k eligible edges is returned for exactly floor(RAND_MAX / k) raw values |
| Choose.BandIsUniform | wsn/common/trust/choose/banded/trust-choose.c:107-119 | each of k edges kept is returned for exactly floor(RAND_MAX / k) raw values |
| Proportional.ChooseProportional | wsn/common/trust/choose/proportional/trust-choose.c:16-124 | the candidate whose range holds the raw draw, none in the uncovered tail; undefined if and only if there are candidates and all their trust is zero |
| Proportional.SharesFillRange | wsn/common/trust/choose/proportional/trust-choose.c:74-82 | the 16-bit running sum cannot overflow, and fewer raw values below RAND_MAX are uncovered than there are candidates |
| Proportional.OwnsItsShare | wsn/common/trust/choose/proportional/trust-choose.c:92-110 | the range of candidate i holds exactly floor(p_i * RAND_MAX) raw values |
| Proportional.ReturnedForItsShare | wsn/common/trust/choose/proportional/trust-choose.c:92-117 | each eligible edge is what the policy returns for exactly floor(p * RAND_MAX) raw values, p being its part of all trust |
| Proportional.OwnerIsUnique | wsn/common/trust/choose/proportional/trust-choose.c:97-117 | trust and a raw value determine the result |
| Proportional.OneOwner | wsn/common/trust/choose/proportional/trust-choose.c:97-110 | the ranges are disjoint |
| Proportional.OwnedIffCovered | wsn/common/trust/choose/proportional/trust-choose.c:97-117 | a raw value has an owner if and only if it is below the total |
| Proportional.LargestIsUncovered | wsn/common/trust/choose/proportional/trust-choose.c:97-117 | the raw value RAND_MAX has no owner, however trust is spread |
| BasicTrust.CalculateTrust | wsn/common/trust/models/basic/trust-model.c:56-109 | the weighted sum of expected outcomes, with the stereotype's evidence combined in |
| BasicTrust.Model.UpdateTaskSubmission | wsn/common/trust/models/basic/trust-model.c:111-137 | counts a submission outcome unless it is not to be recorded |
| BasicTrust.Model.UpdateTaskResult | wsn/common/trust/models/basic/trust-model.c:139-156 | counts a result outcome |
| BasicTrust.Model.UpdateResultQuality | wsn/common/trust/models/basic/trust-model.c:158-175 | counts a quality outcome |
| BasicTrust.Model.UpdateChallengeResponse | wsn/common/trust/models/basic/trust-model.c:178-197 | counts a challenge outcome where that capability exists |
| BasicTrust.RunIsCounts | wsn/common/trust/models/basic/trust-model.c:111-198 | after any run of outcomes each distribution is its start plus the counts of its own outcomes; the challenge-response capability counts quality and challenges in one |
| BasicTrust.OnlyCountsMatter | wsn/common/trust/models/basic/trust-model.c:56-198 | runs with equal counts give equal trust |
| BasicTrust.FreshRunTrust | wsn/common/trust/models/basic/trust-model.c:56-198 | from a fresh record trust is the weighted sum of the rules of succession of its metrics |
| BasicTrust.StereotypeIsEvidence | wsn/common/trust/models/basic/trust-model.c:73-80 | an edge with a stereotype is trusted as if it had itself produced the outcomes behind the stereotype |
| BasicTrust.ExpectedOdds | wsn/common/trust/distributions.c:22-28 | the odds of the expected outcome are alpha to beta |
| BasicTrust.RunBounds | wsn/common/trust/models/basic/trust-model.c:56-198 | after any run trust lies in [0, 1] |
| BasicTrust.ValueMonotone | wsn/common/trust/distributions.c:22-60 | with equal stereotypes trust is monotone in every count, strictly in weighted ones |
| BasicTrust.ChooseUndominated | wsn/common/trust/choose/highest/trust-choose.c:17-56 | highest never returns an edge that another comparable eligible edge strictly dominates |
| EdgePing.Pinger.FindNextEdge | wsn/common/trust/edge-ping.c:41-86 | the edge after the remembered one, or the first |
| EdgePing.Pinger.PingRound | wsn/common/trust/edge-ping.c:57-86 | from any state, n calls on an unchanged list of n edges visit each exactly once |
| Base64.BuildTable | wsn/common/base64.c:102-105 | the decode table inverts the alphabet, maps padding to zero and marks everything else |
| Base64.BitwiseIsArithmetic | wsn/common/base64.c:49-74 | on bytes the encoder's shifts and masks are the quotients and remainders of the model |
| Base64.BitwiseIsArithmeticDecoding | wsn/common/base64.c:131-134 | the same for the decoder |
| Base64.Encode | wsn/common/base64.c:30-82 | fails if and only if the buffer is below the computed bound, never writes past it, and writes the encoding |
| Base64.EncodedAt | wsn/common/base64.c:30-82 | every character of the text is that of its six bits, counted from the front of the bytes, or padding behind them |
| Base64.NeededIs | wsn/common/base64.c:37-41 | the room asked for is that of the text and its terminator, and 4, 1 or 2 characters more |
| Base64.Decode | wsn/common/base64.c:95-152 | succeeds exactly when the text decodes in the room given, and stores nothing outside it |
| Base64.RoundTrip | wsn/common/base64.c:30-152 | decoding undoes encoding for every non-empty string if and only if there is room for whole blocks |
| Base64.InsertionIgnored | wsn/common/base64.c:107-129 | inserting characters outside the alphabet never changes the outcome |
| Base64.PaddingEndsText | wsn/common/base64.c:131-152 | text behind padding is ignored, as long as there are whole blocks and room for them |
| Base64.TooMuchPadding | wsn/common/base64.c:136-149 | a block with more than two characters of padding is refused |
| Transfer.ParseOfFormat | resource_rich/applications/routing.py:158-158 | the edge reads the four counters and the body the host wrote |
| Transfer.DecimalDigit | resource_rich/applications/routing.py:158-158 | every digit of a counter stands for its power of ten, without leading zeros |
| Transfer.StatusRead | wsn/applications/routing/edge/routing-task-response.c:236-277 | the announcement submits its last number as status to its target, unless that is no address or an exchange is in flight, and writes over the start of what was gathered |
| Transfer.LineCounts | wsn/applications/routing/edge/routing-task-response.c:355-400 | every line that begins with a bar is an input, and no other line changes anything |
| Transfer.ParseOfCut | wsn/applications/routing/edge/routing-task-response.c:279-318 | a text cut off inside its counters is rejected; one cut off later reads as the same counters and a shorter body |
| Transfer.LineIsData | resource_rich/applications/client_common.py:148-153 | a written line is the application marker, the text the edge parses, and a newline |
| Transfer.LinesWithinIff | resource_rich/applications/routing.py:136-158 | no line of an allowed chunk has more than a given number of characters if and only if the two packet counters and the first piece leave room for each other |
| Transfer.LinesFit | resource_rich/applications/routing.py:136-158 | every line is at most 127 characters with its newline, for chunks up to 256 bytes and up to 100 of them |
| Transfer.FewPieces | resource_rich/applications/routing.py:147-150 | such a chunk needs fewer than ten lines, as the host's overhead assumes |
| Transfer.FitsIff | resource_rich/applications/routing.py:145-150 | the pieces of a chunk, cut as the host cuts it, all find whole blocks free if and only if it has at most 255 bytes |
| Transfer.SeenIsCutLine | resource_rich/applications/client_common.py:138-153 | what the edge sees of a line is its text after the marker, truncated where the line is too long |
| Transfer.LineRead | wsn/applications/routing/edge/routing-task-response.c:279-353 | reading a line, cut or whole, gathers what is left of its piece, or acknowledges it and changes nothing else |
| Transfer.CutLineFallsShort | wsn/common/base64.c:107-152 | a line that was cut brings fewer bytes than its piece has, or none |
| Transfer.PieceRead | wsn/applications/routing/edge/routing-task-response.c:279-353 | a whole line that fits is appended and acknowledged; the last one submits the chunk and empties the buffer, sent or not |
| Transfer.RunBalances | wsn/applications/routing/edge/routing-task-response.c:91-140 | over every run of inputs and callbacks, inputs minus acknowledgements is the number of exchanges in flight |
| Transfer.StopAndWaitRun | wsn/applications/routing/edge/routing-task-response.c:355-400 | in every stop-and-wait run that difference is one exactly while an exchange is in flight, and never more |
| Transfer.LockEndsIff | wsn/applications/routing/edge/routing-task-response.c:123-147 | a locked edge submits nothing, and is unlocked exactly by the end of an exchange or the expiry of the lock |
| Transfer.LockTakenIff | wsn/applications/routing/edge/routing-task-response.c:142-232 | an unlocked edge submits at most one message per line, and is locked exactly when that is accepted |
| TransferNode.Reassembler.ProcessResp2 | wsn/applications/routing/edge/routing-task-response.c:279-353 | decodes into the static buffer at the offset and is the specified step |
| TransferNode.Reassembler.ProcessResp1 | wsn/applications/routing/edge/routing-task-response.c:236-277 | parses the target and status and submits the status message |
| TransferNode.Reassembler.ProcessSerialInput | wsn/applications/routing/edge/routing-task-response.c:355-400 | the dispatch of a serial line and its acknowledgement |
| TransferNode.Reassembler.OnFinished | wsn/applications/routing/edge/routing-task-response.c:123-139 | the end of an exchange unlocks and acknowledges once |
| Delivery.LineWithoutRoom | wsn/applications/routing/edge/routing-task-response.c:320-325 | a whole line that finds no room is acknowledged and changes nothing else |
| Delivery.ChunkLeaves | wsn/applications/routing/edge/routing-task-response.c:279-353 | exactly what a chunk of any length, in a result of any number of chunks, submits and leaves in the buffer |
| Delivery.ChunkSurvivesIff | wsn/applications/routing/edge/routing-task-response.c:279-353 | an idle edge submits exactly the chunk and is left empty if and only if the chunk has at most 255 bytes and counters that leave room for its longest line |
| Delivery.Chunk256IsLost | wsn/applications/routing/edge/routing-task-response.c:320-327 | a chunk of 256 bytes submits nothing and leaves its first 207 bytes in the buffer |
| Delivery.NextIsCorrupted | wsn/applications/routing/edge/routing-task-response.c:327-341 | a following chunk of up to 48 bytes is submitted behind those 207 bytes |
| Delivery.LateChunkIsBroken | resource_rich/applications/routing.py:136-158 | with three digits in both counters a chunk of 255 bytes loses its first three lines, and its last 45 bytes are submitted alone |
| Delivery.ResultSurvivesIff | resource_rich/applications/routing.py:108-112 | a result is submitted in full, as consecutive blocks up to the first rejection and with nothing left over, if and only if every chunk sent meets the condition of `ChunkSurvivesIff` |
| Delivery.SmallResultSurvivesIff | resource_rich/applications/routing.py:108-112 | for up to 100 chunks, over a line that takes the host's limit, that is if and only if no chunk sent exceeds 255 bytes |
| TransferNode.SendChunk | resource_rich/applications/routing.py:127-165 | for chunks of every length, the lines sent, as far as they arrive, and the edge's state after them are those of the model, and the host stops exactly when the node has cancelled |
| TransferNode.SendResult | resource_rich/applications/routing.py:108-112 | for results of every kind, CoAP message i carries chunk i as block i, with more set if and only if i + 1 < n, and nothing is left over, if and only if every chunk sent has at most 255 bytes and lines that are not cut |
| Gaussian.Distribution.Update | wsn/common/trust/distributions.c:109-134 | one streaming update of mean, variance and count |
| Gaussian.StreamingIsBatch | wsn/common/trust/distributions.c:101-134 | after any values the state is the batch mean and the batch sample variance, zero for one value |
| Gaussian.GivenVarianceIsUnused | wsn/common/trust/distributions.c:93-134 | from an initial mean and variance the state continues as if the mean had been the first value |
| Flash.Device.Download | tools/deploy/flash_backend/cc2538-bsl.py:529-544 | refuses a size that is not a multiple of four, else sets the write pointer |
| Flash.Device.SendData | tools/deploy/flash_backend/cc2538-bsl.py:546-558 | programs at the pointer and advances it |
| Flash.SendPacket | tools/deploy/flash_backend/cc2538-bsl.py:633-647 | sending or skipping a packet keeps the image in place, and a set address always equals the device's pointer |
| Flash.WriteMemory | tools/deploy/flash_backend/cc2538-bsl.py:612-651 | erased flash ends up holding the image exactly; the packets sent are those of the model, in order; a download is refused if and only if the length is not a multiple of four |
| Flash.PacketsAreNeeded | tools/deploy/flash_backend/cc2538-bsl.py:633-651 | every packet sent but the last holds something other than blanks |
| Flash.ByteIsSent | tools/deploy/flash_backend/cc2538-bsl.py:633-651 | every byte that is not blank is sent to its own address |
| Flash.LocksOutIff | tools/deploy/flash_backend/cc2538-bsl.py:617-624 | exactly which images disable the boot loader and need consent |
| Timeline.FindStatusAtTime | analysis/graph/correctly_evaluted.py:22-32 | the status set by the last change not after the instant, also with repeated times |
| Timeline.BeliefCorrect | analysis/graph/correctly_evaluted.py:34-69 | the classification of both statuses at every change of the two histories and at no other time, in order |
| Timeline.ChangesAreAll | analysis/graph/correctly_evaluted.py:38-38 | the changes are those of both histories, each as often as it occurs, ascending |
| Timeline.ClassMeans | analysis/graph/correctly_evaluted.py:44-67 | each class stands for exactly one pair of statuses, and without both there is none |
| Timeline.ClassifiedAtEveryInstant | analysis/graph/correctly_evaluted.py:34-69 | from the first change on, looking up the result at any instant classifies the two statuses at that instant |
| Timeline.UnknownBefore | analysis/graph/correctly_evaluted.py:28-32 | before the first change nothing is known |
| Timeline.Squash | analysis/graph/util.py:48-86 | fails if and only if a value is not one of the kinds, never with the logic error, and yields each kind's intervals |
| Timeline.DurationsSum | analysis/graph/util.py:48-86 | over all kinds the durations add up to last minus first time |
| Timeline.IntervalsAreStatus | analysis/graph/util.py:48-86 | before the last entry an instant lies in an interval of a kind if and only if that kind is the status at it |
| Timeline.SquashBelief | analysis/graph/correctly_evaluted.py:34-69 | squashing a classified history never fails, its durations add up to the time from the first to the last change of the two histories, and the intervals of each class cover exactly its instants |

## Left out

- Floating point is exact real arithmetic: rounding, NaN and infinities are not modelled. In particular the host's chunk-size divisions are exact, and the `log` and `exp` of the HMM termination are a product.
- DecodeEncode: the certificate decoder is modelled on byte sequences, not as a cursor into a buffer; where its outer array cannot be entered it goes on with arbitrary bytes; and indefinite-length CBOR and negative integers are not accepted.
- Keystore list walks: `Find` and `FreeUp` pass over an entry whose block is not allocated, where the original would read it; the invariant shows that there is none when a step begins. Going on from a block that the eviction walk has just freed is a parameter.
- Updates inside linked lists: the keystore's and the edge table's lists are sequences and their pools are maps, so the straight-line handlers of `KeystoreNode` and `OffloadNode` do not capture how the list nodes are linked.
- Merging received trust into the peer database: the model records who said what, in order.
- Signature, key-exchange and hash hardware is an uninterpreted function with an error outcome; a hash failure that leaves an older result in place is not modelled.
- The return convention of `memb_free` and whether a removed list element keeps its successor are parameters: the results hold for both.
- The signing queue, the request for missing public keys, OSCORE contexts and the CoAP engine. A CoAP exchange is one optional response and one end.
- Repeated subjects in the keystore are allowed, as the search ignores the list it is given.
- 32-bit wrap-around of Beta and Gaussian counts and of the block counters parsed from a line; leading blanks and signs that `strtoul` accepts.
- The real-time expiry of locks appears only as an event that may unlock at any moment.
- Python's scheduling: an acknowledgement that arrives before the sender waits for it is not lost in the model. The serial driver is not part of this model: of a line it delivers the first characters, up to a limit that is a parameter (126 without the newline if the host's 127 include it), and the newline is never lost. The sender is modelled from the chunk loop on; route computation and the choice of route chunks are not.
- The flash model takes every command as acknowledged; checksums and packet framing are not modelled.
- `hmm_serialise` and `hmm_deserialise`, MQTT topic parsing and subscription, stereotype requests, peer trust, the other trust models, the challenge-response and monitoring applications, adversary code, deployment, plotting and log parsing are not modelled.
