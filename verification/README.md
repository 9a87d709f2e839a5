# GenChat: a verified model of its group protocol, media frames, handshake and client sync

GenChat is an end-to-end encrypted messenger. This project models, in Dafny, the parts of it that
carry state and real invariants, and proves what they keep over every run.

| file | models |
|---|---|
| `Bytes.dfy` | big-endian integers, decimal text, splitting lemmas |
| `Terms.dfy` | symbolic cryptography: HKDF, X25519, AES-GCM, Ed25519, ML-KEM as free constructors |
| `KeySchedule.dfy` | the epoch key schedule of the group protocol |
| `RatchetTree.dfy` | the leaf array as a slot allocator |
| `Mls.dfy` | group states, messages and operations as functions of the state |
| `MlsGroups.dfy` | the live group object, and the load-operate-store wrappers of the wasm layer |
| `MlsRuns.dfy` | whole runs of a group under reordering, repetition and loss of commits |
| `MlsAdmission.dfy` | who gets into a group over a run |
| `MlsNonces.dfy` | when a message key meets a nonce twice over a run, and that in orderly runs none does |
| `MlsDiscipline.dfy` | that every condition of an orderly run is needed |
| `SFrame.dfy` | media frames: counters, nonces, replay window |
| `Pqxdh.dfy` | the PQXDH handshake |
| `Models.dfy` | the records of the local database |
| `Reconciler.dfy`, `InboundSync.dfy` | the inbound batch reconciler, as a machine and as an object |
| `SecureStorage.dfy` | storage encrypted at rest, and the push handler over it |
| `Search.dfy` | ranked and paged full-text search |

## How it is modelled

- Cryptographic primitives are free constructors of a term datatype. Opening undoes sealing, the two
  sides of a Diffie-Hellman exchange are one term, and key derivation is injective, all by
  construction. A 32-byte value that a primitive made stands in a byte string as one symbol; counters,
  headers, nonces, tags and associated data are real byte strings. Strings are their UTF-8 bytes,
  except in hex texts, in the records of the local database and in search, where they are characters.
- Randomness, the clock and generated record ids are parameters. Machine addition wraps around, as in
  a release build (`Wrap32`, `Wrap64`).
- Objects that the program updates in place are classes. Each method is proved against a function of
  the state, and the results over whole runs are lemmas about those functions.
- An asynchronous function is cut at its awaits: `Reconciler.Flush` is a suspended flush, and any step
  of anything else may come between two of its steps.
- In a run of a group, one member commits. Members that join keep the tree they were welcomed with,
  because applying a commit does not touch the receiver's tree. `MlsNonces.Orderly` states what callers
  must respect for the uniqueness of key and nonce: leaf indices and the messages of an epoch stay within
  32 bits, the committer does not remove its own leaf, a Welcome makes one member only, and a removed
  member does not apply its own removal. `MlsDiscipline` has, for each of these five, a run that breaks it
  in one step, respects all of them in every other, and repeats key and nonce. The agreement results in
  `MlsRuns` need none of this, and neither does `MlsNonces.WireRepeatsIff`, the exact condition for two
  messages of any run.

Where code and documentation disagree, the model follows the code:

- Search is documented to match the prefix semantics of SQLite FTS5. The code looks for each term
  anywhere in the text, and a trailing star changes nothing but to be dropped.
- A flush is documented as one atomic database batch. The code lets other tasks run between its writes;
  the model shows the state at each such point.
- The media frame window is "more than 128 behind the highest counter seen", except for the last 128
  counters, where the addition wraps and repeats inside the window are refused. The exact condition is
  `SFrame.WindowIsExactBelowOverflow`, a receiver that fails is `SFrame.LastFrameNotAcceptedTwice`, and the
  results about runs of a receiver hold for all counters.

## Model

| member | source | states |
|---|---|---|
| KeySchedule.EpochInfoInjective | crypto/genchat-crypto/src/mls.rs:21-23 | the tag followed by the 8-byte epoch determines tag and epoch, whatever bytes the tag has |
| KeySchedule.FoldStep | crypto/genchat-crypto/src/mls.rs:390-405 | one more tag, an empty one standing for the add tag, moves both secrets of the fold on by exactly one derivation |
| KeySchedule.SecretsAgreeIffHistoriesAgree | crypto/genchat-crypto/src/mls.rs:16-29 | at one epoch, epoch secrets are equal if and only if the initial secrets and all normalised tags so far are equal |
| KeySchedule.AppSecretsAgreeIffHistoriesAgree | crypto/genchat-crypto/src/mls.rs:31-36 | the same for application secrets, epoch 0 with its own derivation included |
| KeySchedule.ForksNeverHeal | crypto/genchat-crypto/src/mls.rs:390-405 | once two tag histories differ, both secrets differ at every later epoch |
| KeySchedule.EpochsNeverCollide | crypto/genchat-crypto/src/mls.rs:215-218 | histories from random starts never produce equal secrets at different epochs |
| KeySchedule.AppSecretNamesHistory | crypto/genchat-crypto/src/mls.rs:16-37 | an application secret determines its group's start, its epoch and its tag history, and conversely |
| KeySchedule.UsesNeverCollide | crypto/genchat-crypto/src/mls.rs:28-36 | no application secret of any group, history and epoch is an epoch secret of any |
| KeySchedule.AddAndRemoveDiverge | crypto/genchat-crypto/src/mls.rs:21-36 | from one secret, adding and removing lead to different epoch and application secrets |
| KeySchedule.DerivationOfEpoch258 | crypto/genchat-crypto/src/mls.rs:16-37 | salt, keying material and labels of both derivations, written out for one add |
| RatchetTree.FirstBlank | crypto/genchat-crypto/src/mls.rs:121-127 | the chosen slot is blank or the end, and no lower slot is blank |
| RatchetTree.WithLeaf | crypto/genchat-crypto/src/mls.rs:120-130 | an add puts the leaf in that slot and disturbs no other leaf |
| RatchetTree.Blanked | crypto/genchat-crypto/src/mls.rs:132-136 | blanking marks one leaf and disturbs no other; past the end it changes nothing |
| RatchetTree.FindByUser | crypto/genchat-crypto/src/mls.rs:116-118 | the first occupied leaf of a user, or none exactly when the user has no occupied leaf |
| RatchetTree.TreeKemTree.AddLeaf | crypto/genchat-crypto/src/mls.rs:120-130 | the loop leaves the array of `WithLeaf` and returns the slot of `FirstBlank` |
| RatchetTree.TreeKemTree.BlankLeaf | crypto/genchat-crypto/src/mls.rs:132-136 | the array afterwards is that of `Blanked` |
| RatchetTree.TreeKemTree.FindLeafByUser | crypto/genchat-crypto/src/mls.rs:116-118 | the search loop returns the leaf of `FindByUser` |
| RatchetTree.LengthIsPeak | crypto/genchat-crypto/src/mls.rs:112-136 | after any adds and blanks from an empty tree, the number of slots is the largest number of members there ever was at once |
| Mls.NewKeyPackage | crypto/genchat-crypto/src/mls.rs:50-70 | a package made by its owner verifies and publishes the owner's key |
| Mls.SignatureFixes | crypto/genchat-crypto/src/mls.rs:72-87 | of all packages carrying a signature, exactly those verify that have the signer's key, the same X25519 key, and the same concatenation of user id and device id |
| Mls.SignatureLeavesBorderOpen | crypto/genchat-crypto/src/mls.rs:57-61 | so the border between the two ids is not signed: a package signed for ("ab", "c") verifies for ("a", "bc") |
| Mls.AssociatedDataInjective | crypto/genchat-crypto/src/mls.rs:471 | the text group:epoch:generation determines all three parts even when the group id has colons or digits |
| Mls.MessageKeyInjective | crypto/genchat-crypto/src/mls.rs:453-460 | a message key determines application secret and generation |
| Mls.MessageNonceInjective | crypto/genchat-crypto/src/mls.rs:463-465 | a nonce determines generation and the low 32 bits of the leaf index, and nothing else |
| Mls.DecryptsIffSameEpochState | crypto/genchat-crypto/src/mls.rs:448-528 | a message decrypts to its plaintext exactly at states with the same group id, epoch and application secret; each other case gives its own error |
| Mls.HeaderIsAuthentic | crypto/genchat-crypto/src/mls.rs:491-528 | any envelope carrying a member's sealed body that is accepted anywhere has the original group, epoch, generation, 32-bit leaf and text |
| Mls.WelcomeRoundTrip | crypto/genchat-crypto/src/mls.rs:234-379 | joining with the package's private key gives the adder's new group id, epoch, both secrets and tree, and an index naming the newcomer's leaf in a slot that was free; any other key is refused |
| Mls.CreateAnswer | crypto/genchat-crypto/src/mls.rs:198-231 | a new group has one leaf, with the creator's ids and the public halves of its keys, at epoch and generation zero |
| Mls.AddAnswer | crypto/genchat-crypto/src/mls.rs:234-326 | an add goes through exactly for a package whose identity key signed both ids and the X25519 key, and otherwise answers InvalidSignature and changes nothing; Welcome and Commit announce group, epoch, tree and tag |
| Mls.RemoveAnswer | crypto/genchat-crypto/src/mls.rs:416-445 | a removal goes through exactly when the user has an occupied leaf; it blanks the first one and keeps the others, and otherwise changes nothing |
| Mls.ApplyAnswer | crypto/genchat-crypto/src/mls.rs:382-408 | a commit is applied exactly when it is for the next epoch; the refusal names the expected and the given epoch |
| Mls.ReceiverFollows | crypto/genchat-crypto/src/mls.rs:390-405 | a receiver level with the committer follows its commit to the same secrets, an add also without its tag, a removal not |
| Mls.JoinAnswer | crypto/genchat-crypto/src/mls.rs:329-379 | for every Welcome, when joining works and which error it gives otherwise |
| Mls.EncryptAnswer | crypto/genchat-crypto/src/mls.rs:448-488 | the header names group, epoch, leaf and the generation spent; nothing but the generation changes |
| Mls.MessageNonceReads | crypto/genchat-crypto/src/mls.rs:463-466 | the nonce's first four bytes are the leaf index, its last eight the generation |
| Mls.AssociatedDataWrittenOut | crypto/genchat-crypto/src/mls.rs:471 | the associated data of one message, as text |
| Mls.MessageKeyWrittenOut | crypto/genchat-crypto/src/mls.rs:453-460 | the derivation of one message key, written out |
| Mls.KeysOfDifferentUses | crypto/genchat-crypto/src/mls.rs:263-266 | keys for Welcomes, messages, epochs and applications never meet |
| MlsGroups.MlsGroup.Create | crypto/genchat-crypto/src/mls.rs:199-231 | the new group is at epoch 0 with its creator in slot 0 and the initial secrets |
| MlsGroups.MlsGroup.ImportState | crypto/genchat-crypto/src/mls.rs:546-561 | exporting an imported state gives it back, generation counter included |
| MlsGroups.MlsGroup.AddMember | crypto/genchat-crypto/src/mls.rs:234-326 | new state, Welcome and Commit are those of the specification; a bad signature changes nothing |
| MlsGroups.MlsGroup.RemoveMember | crypto/genchat-crypto/src/mls.rs:416-445 | new state and Commit are those of the specification; an unknown user changes nothing |
| MlsGroups.MlsGroup.ApplyCommit | crypto/genchat-crypto/src/mls.rs:382-408 | only the commit for the next epoch moves the member; its tree never changes |
| MlsGroups.MlsGroup.EncryptMessage | crypto/genchat-crypto/src/mls.rs:448-488 | the ciphertext uses the generation before the increment, and only the counter changes |
| MlsGroups.MlsGroup.DecryptMessage | crypto/genchat-crypto/src/mls.rs:491-528 | group check, epoch check, and opening with key, nonce and associated data rebuilt from the fields give the specified answer |
| MlsGroups.Perform | crypto/genchat-crypto-wasm/src/lib.rs:417-417 | one operation on a live group; a failed one has changed nothing |
| MlsGroups.ReplyTells | crypto/genchat-crypto-wasm/src/lib.rs:406-566 | for every state and call, what the reply says about the new state: failures change nothing, epochs are the new ones, messages are readable, senders are named |
| MlsGroups.LoadOperateStore | crypto/genchat-crypto-wasm/src/lib.rs:406-433 | import, one operation, export has the effect of the operation itself |
| MlsGroups.ServeBothWays | crypto/genchat-crypto-wasm/src/lib.rs:406-566 | any call sequence served by loading and storing around each call, and on one group in memory, gives equal replies and equal final state |
| MlsRuns.CommitContinuesFold | crypto/genchat-crypto/src/mls.rs:382-408 | a commit of the log is accepted exactly when it is the next one, and then continues the fold |
| MlsRuns.DeliverMovesIffNext | crypto/genchat-crypto/src/mls.rs:383-405 | a stale or early commit changes nothing; the next one moves that member alone |
| MlsRuns.StepKeepsAgreement | crypto/genchat-crypto/src/mls.rs:234-488 | every add, remove, join, delivery and send keeps members, Welcomes and messages on the fold of the log |
| MlsRuns.RunsAgree | crypto/genchat-crypto/src/mls.rs:199-445 | in every run every member's epoch and secrets are the fold of the log prefix whose length is its epoch |
| MlsRuns.CatchUpReaches | crypto/genchat-crypto/src/mls.rs:382-408 | in-order delivery takes a member to any later epoch and touches nobody else |
| MlsRuns.MissingCommitsCatchUp | crypto/genchat-crypto/src/mls.rs:382-408 | from any reachable state, the missing commits in order bring any member to the committer's epoch and secrets |
| MlsRuns.EveryMessageReadable | crypto/genchat-crypto/src/mls.rs:448-528 | in every run, every member reads every message exactly while at the message's epoch, and refuses it by epoch otherwise |
| MlsAdmission.StepKeepsGuard | crypto/genchat-crypto/src/mls.rs:234-408 | every step keeps leaves, Welcomes, filled slots and joined members vetted |
| MlsAdmission.OnlySignedPackagesEnter | crypto/genchat-crypto/src/mls.rs:234-379 | in every run, every occupied leaf but the creator's and every slot ever filled comes from an add whose package the leaf's key signed; every Welcome is sealed for the key in its leaf; whoever joined holds that leaf's private key |
| MlsNonces.StepKeepsSlots | crypto/genchat-crypto/src/mls.rs:120-136 | every orderly step keeps slots exclusive, members seated where they were added, and the committer's tree equal to the occupied slots |
| MlsNonces.StepKeepsGenerations | crypto/genchat-crypto/src/mls.rs:448-450 | every orderly step keeps each generation of an epoch spent at most once per member |
| MlsNonces.SameSlotDisjointStays | crypto/genchat-crypto/src/mls.rs:120-136 | two members that ever hold one slot hold it in disjoint stretches of epochs |
| MlsNonces.SlotAndGenerationNameTheMessage | crypto/genchat-crypto/src/mls.rs:449-466 | at one epoch no two messages share slot and generation |
| MlsNonces.OrderlyRunsStayTidy | crypto/genchat-crypto/src/mls.rs:234-488 | all of these hold in every state of every orderly run |
| MlsNonces.KeyAndNonceNeverRepeat | crypto/genchat-crypto/src/mls.rs:448-488 | in every orderly run no two encryptions by any members share both key and nonce, although slots are reused and generations restart |
| MlsNonces.WireRepeatsIff | crypto/genchat-crypto/src/mls.rs:448-488 | in every run, orderly or not, two messages share key and nonce exactly when epoch, generation and the low 32 bits of the slot agree |
| MlsNonces.NextMessagesRepeatIff | crypto/genchat-crypto/src/mls.rs:453-466 | the next messages of two states share key and nonce exactly when secret, generation and low 32 bits of the slot agree |
| MlsDiscipline.OrderlyMeansNoBreach | crypto/genchat-crypto/src/mls.rs:234-488 | a run is orderly exactly when no step of it breaks the conditions |
| MlsDiscipline.SelfRemovalRepeats | crypto/genchat-crypto/src/mls.rs:120-136 | a run in which the committer removes its own leaf, and all else is orderly, repeats key and nonce |
| MlsDiscipline.OwnRemovalAppliedRepeats | crypto/genchat-crypto/src/mls.rs:382-408 | so does a run in which only a removed member's applying its own removal is not orderly |
| MlsDiscipline.SecondJoinRepeats | crypto/genchat-crypto/src/mls.rs:329-379 | so does a run in which only the second use of a Welcome is not orderly |
| MlsDiscipline.WelcomeIsSingleUse | crypto/genchat-crypto/src/mls.rs:368-378 | from any state, two members made from one Welcome repeat key and nonce with their first messages |
| MlsDiscipline.TooManyMessagesRepeat | crypto/genchat-crypto/src/mls.rs:448-466 | so does the message after 2^32 in one epoch, with the first |
| MlsDiscipline.TooManyLeavesRepeat | crypto/genchat-crypto/src/mls.rs:463-466 | so does the member in leaf 2^32, with the one in leaf 0 |
| SFrame.XorInjective | crypto/genchat-crypto/src/sframe.rs:57-59 | XOR with a fixed byte is injective |
| SFrame.XorAt | crypto/genchat-crypto/src/sframe.rs:57-59 | a bit of an XOR is set exactly when the two bits differ |
| SFrame.NonceInjective | crypto/genchat-crypto/src/sframe.rs:54-60 | under one salt, nonces are equal exactly when counters are |
| SFrame.NonceReads | crypto/genchat-crypto/src/sframe.rs:54-60 | a nonce starts with the salt's first four bytes, and its last eight with the salt taken off are the counter |
| SFrame.HeaderRoundTrip | crypto/genchat-crypto/src/sframe.rs:91-95 | the 16-byte header and the pair of key id and counter determine each other |
| SFrame.HeaderWrittenOut | crypto/genchat-crypto/src/sframe.rs:64-66 | the bytes of one header |
| SFrame.SFrameTransformer.constructor | crypto/genchat-crypto/src/sframe.rs:27-46 | a new transformer has derived keys, counter zero and an empty window |
| SFrame.SFrameTransformer.BuildNonce | crypto/genchat-crypto/src/sframe.rs:104-110 | the in-place XOR loop builds the specified nonce |
| SFrame.SFrameTransformer.EncryptFrame | crypto/genchat-crypto/src/sframe.rs:50-83 | the frame carries the counter before the increment; only the counter changes |
| SFrame.SFrameTransformer.DecryptFrame | crypto/genchat-crypto/src/sframe.rs:86-130 | answer and counters are those of the specification |
| SFrame.NoncesNeverRepeat | crypto/genchat-crypto/src/sframe.rs:50-60 | over up to 2^64 sends of one transformer, from any counter, all nonces are distinct |
| SFrame.SharedBaseRepeatsIff | crypto/genchat-crypto/src/sframe.rs:27-60 | two transformers on one base secret seal under one key, and their nonces are equal exactly at equal counters, whatever the key ids |
| SFrame.BaseSecretsKeepApart | crypto/genchat-crypto/src/sframe.rs:27-32 | frame keys are equal exactly when base secrets are |
| SFrame.FrameKeyWrittenOut | crypto/genchat-crypto/src/sframe.rs:28-32 | the frame key is drawn from the base secret without salt |
| SFrame.FirstNonceIsSalt | crypto/genchat-crypto/src/sframe.rs:34-60 | the first frame of a transformer is sealed with its base secret's salt as nonce |
| SFrame.FrameIsAuthentic | crypto/genchat-crypto/src/sframe.rs:68-83 | a sent body opens under the sender's key, with the sent header and to the sent payload, or not at all |
| SFrame.OtherBaseRefusesFrame | crypto/genchat-crypto/src/sframe.rs:86-130 | a frame under another base secret is refused and changes nothing, whatever its counter and the receiver's past |
| SFrame.OtherBaseAcceptsNothing | crypto/genchat-crypto/src/sframe.rs:27-130 | a receiver on another base secret accepts no frame of any schedule, and its counters stay empty |
| SFrame.FailureChangesNothing | crypto/genchat-crypto/src/sframe.rs:97-129 | a frame that is refused or does not open leaves the counters alone; an accepted one raises its own entry at most |
| SFrame.EntryIsLargestAccepted | crypto/genchat-crypto/src/sframe.rs:123-127 | over any frames at all, an entry exists exactly when a frame with that key id was accepted, and is the largest such counter |
| SFrame.WindowIsExactBelowOverflow | crypto/genchat-crypto/src/sframe.rs:97-102 | the test refuses exactly the counters more than 128 behind, if and only if the counter is below 2^64 - 128 or above the highest |
| SFrame.LastFrameNotAcceptedTwice | crypto/genchat-crypto/src/sframe.rs:97-102 | a receiver given the frame with counter 2^64 - 1 twice accepts it once and refuses it inside the window |
| SFrame.FrameAnswer | crypto/genchat-crypto/src/sframe.rs:86-130 | after any frames, the answer to any frame: too short; refused exactly when an accepted frame of its key id was more than 128 ahead, or, among the last 128 counters, not behind it; not authentic; or its payload |
| SFrame.SchedulesDeliver | crypto/genchat-crypto/src/sframe.rs:50-130 | with one base secret, under any order, repetition and loss of all frames a sender can number, a delivery yields its payload exactly when no earlier one put it out of the window; below the last 128 counters, that is when none was more than 128 ahead |
| Pqxdh.DeriveSharedSecret | crypto/genchat-crypto/src/pqxdh.rs:161-191 | the buffer loop feeds separator, all exchanges in order and the encapsulated secret, and returns both identities as associated data |
| Pqxdh.SharedSecretInjective | crypto/genchat-crypto/src/pqxdh.rs:167-183 | the shared secret determines the number, order and values of its inputs |
| Pqxdh.SecretsAgreeIffLookupMatches | crypto/genchat-crypto/src/pqxdh.rs:33-153 | for any offered and any held one-time keys, both sides agree on the associated data, and on the secret exactly when the responder's lookup gives the private half of the key taken |
| Pqxdh.InitiateAnswer | crypto/genchat-crypto/src/pqxdh.rs:33-101 | for every bundle: accepted exactly when its identity key signed both pre-keys and its encapsulation key is well formed, with the error of each other case; the secret, associated data and message that come out |
| Pqxdh.ReceiveAnswer | crypto/genchat-crypto/src/pqxdh.rs:104-153 | the responder fails exactly on a malformed ciphertext, and binds both identities |
| Pqxdh.OnlyTheOwnerAgrees | crypto/genchat-crypto/src/pqxdh.rs:33-153 | whoever answers derives the initiator's secret exactly when it holds the private halves of the signed pre-key, identity key, encapsulation key and one-time key |
| Pqxdh.OnlyTheMessageAgrees | crypto/genchat-crypto/src/pqxdh.rs:33-153 | the owner, given any well-formed message, derives the secret exactly when the message has the initiator's keys and ciphertext and leads to the one-time key taken |
| Pqxdh.GenerateKeys | crypto/genchat-crypto-wasm/src/lib.rs:33-103 | the two lists have ids 1 to n and matching halves, both pre-keys have id 1, and the published bundle verifies, for every requested count |
| Pqxdh.LookupFindsOwnKey | crypto/genchat-crypto-wasm/src/lib.rs:214-217 | with distinct ids, lookup by id finds that very key |
| Pqxdh.LookupIsFirst | crypto/genchat-crypto-wasm/src/lib.rs:214-217 | the lookup gives the first key with the id, and nothing exactly when there is none |
| Pqxdh.Handshake | crypto/genchat-crypto-wasm/src/lib.rs:119-248 | generate, initiate and receive end with equal secrets and associated data for every one-time-key count |
| Reconciler.StepKeepsInv | packages/client-db/src/sync/reconciler.ts:43-117 | every arrival, timer firing, flush call and resumption keeps one flush at most, a wake-up for every queue, arrival order, and the serial store |
| Reconciler.EverySchedule | packages/client-db/src/sync/reconciler.ts:43-117 | so does every schedule: each payload is in exactly one of processed, in flight and queued, in order; between flushes the store is that of one-at-a-time processing, and the numbers the flushes returned add up to the payloads processed |
| Reconciler.FlushTakesAll | packages/client-db/src/sync/reconciler.ts:60-64 | a flush starts exactly when something is queued and none runs, and takes the whole queue |
| Reconciler.TimerAfter | packages/client-db/src/sync/reconciler.ts:48-55 | exactly when a timer is set and cleared |
| Reconciler.UnreadCountsPayloads | packages/client-db/src/sync/reconciler.ts:98-106 | serial processing raises a channel's unread count by its payloads and adds or drops no channel |
| Reconciler.UnreadInEverySchedule | packages/client-db/src/sync/reconciler.ts:60-108 | the same in every reachable state, also inside a flush |
| Reconciler.LastWriteWins | packages/client-db/src/sync/reconciler.ts:84-96 | in serial processing a message record is that of the last payload processed under its id |
| Reconciler.LastWriteInEverySchedule | packages/client-db/src/sync/reconciler.ts:60-108 | the same in every reachable state, also inside a flush, counting the record under way |
| Reconciler.RecordsShowPayloads | packages/client-db/src/sync/reconciler.ts:70-96 | in every reachable state, the last payload recorded under an id is stored with its decrypted text or the placeholder, its channel, sender, id and number, and its time or the clock's |
| Reconciler.LastActivityInEverySchedule | packages/client-db/src/sync/reconciler.ts:101-106 | in every reachable state, a channel's last activity is when its last processed payload was noted |
| Reconciler.WakeUpsDrain | packages/client-db/src/sync/reconciler.ts:48-117 | from every reachable state, resumptions and timer firings alone process and report everything that has arrived |
| InboundSync.InboundSyncReconciler.Enqueue | packages/client-db/src/sync/reconciler.ts:43-46 | an arrival keeps the class invariant and is the machine's arrival step |
| InboundSync.InboundSyncReconciler.TimerCallback | packages/client-db/src/sync/reconciler.ts:51-54 | a timer firing keeps the class invariant and is the machine's timer step |
| InboundSync.InboundSyncReconciler.FlushQueue | packages/client-db/src/sync/reconciler.ts:60-76 | a call keeps the class invariant, runs to its first await, and has resolved to zero exactly when there is nothing to do |
| InboundSync.InboundSyncReconciler.CreateRecord | packages/client-db/src/sync/reconciler.ts:70-96 | stores, under its id, a message with the payload's fields, the decrypted text or the placeholder, and nothing else |
| InboundSync.InboundSyncReconciler.Resume | packages/client-db/src/sync/reconciler.ts:98-116 | a resumption keeps the class invariant; the flush is over exactly when it returns a number, and then all returned numbers add up to the payloads processed |
| InboundSync.InboundSyncReconciler.Live | packages/client-db/src/sync/reconciler.ts:43-117 | under any schedule the object goes through the states of the machine: one flush at most, a wake-up for every queue, every payload in one place and in order, and the serial store between flushes |
| InboundSync.InboundSyncReconciler.Settle | packages/client-db/src/sync/reconciler.ts:48-117 | with no further arrival, the object's own wake-ups process and report all that has arrived, and leave the serial store |
| SecureStorage.BytesToHex | packages/client-crypto/src/storage.ts:38-40 | two lower-case hex digits per byte, the high half first |
| SecureStorage.HexToBytes | packages/client-crypto/src/storage.ts:48-52 | for any text, the loop stores what each pair of characters reads as, with white space, signs, other characters and either case, and drops a trailing single character |
| SecureStorage.StrayTextWrittenOut | packages/client-crypto/src/storage.ts:48-52 | what signs, white space, stray characters and a single digit read as |
| SecureStorage.CaseDoesNotMatter | packages/client-crypto/src/storage.ts:48-52 | upper and lower case digits read alike |
| SecureStorage.HexRoundTrip | packages/client-crypto/src/storage.ts:33-53 | decoding undoes encoding |
| SecureStorage.EncodeUndoesDecodeIff | packages/client-crypto/src/storage.ts:33-53 | encoding undoes decoding exactly on texts of whole pairs of lower-case digits |
| SecureStorage.KeyTextInjective | packages/client-crypto/src/storage.ts:145-170 | the identity entry and the entries of different conversations have different map keys |
| SecureStorage.KeyTextWrittenOut | packages/client-crypto/src/storage.ts:145-170 | the map keys, as text |
| SecureStorage.SecureKeyStorage.GetMasterKey | packages/client-crypto/src/storage.ts:81-99 | the cached key, or a newly generated one that is then cached |
| SecureStorage.SecureKeyStorage.EncryptAtRest | packages/client-crypto/src/storage.ts:104-126 | the entry opens under the cached key through its hex vector, which is the vector drawn |
| SecureStorage.SecureKeyStorage.DecryptAtRest | packages/client-crypto/src/storage.ts:131-140 | opens an entry under the cached key |
| SecureStorage.SecureKeyStorage.StoreIdentityKey | packages/client-crypto/src/storage.ts:145-149 | replaces the identity, keeps every session, and every entry still opens |
| SecureStorage.SecureKeyStorage.LoadIdentityKey | packages/client-crypto/src/storage.ts:154-161 | returns what was stored last |
| SecureStorage.SecureKeyStorage.StoreSession | packages/client-crypto/src/storage.ts:166-170 | replaces one conversation's session and keeps everything else |
| SecureStorage.SecureKeyStorage.LoadSession | packages/client-crypto/src/storage.ts:175-182 | returns that conversation's session, or none |
| SecureStorage.SecureKeyStorage.GetSession | packages/client-crypto/src/storage.ts:184-187 | returns the pickle, or the empty one |
| SecureStorage.SecureKeyStorage.SaveSession | packages/client-crypto/src/storage.ts:189-197 | stores pickle and pickle key under the channel, with 64 zero digits for a missing key |
| SecureStorage.SecureKeyStorage.WipeAllKeys | packages/client-crypto/src/storage.ts:202-205 | nothing is left, the cached key included |
| SecureStorage.SyncReconciler.HandleIncomingPush | packages/client-db/src/sync/reconciler.ts:129-170 | a push that decrypts leaves the updated session under its channel, with the time and the default pickle key, and stores its message; one that throws changes neither |
| SecureStorage.PushKeepsReflecting | packages/client-db/src/sync/reconciler.ts:136-147 | a push keeps every channel's session equal to its fold |
| SecureStorage.PushAdvances | packages/client-db/src/sync/reconciler.ts:139-147 | a push the ratchet opens advances its channel to the updated session, any other leaves it |
| SecureStorage.InboxShowsPushes | packages/client-db/src/sync/reconciler.ts:149-168 | every push opened is stored with the plaintext, the ciphertext it came in, and its channel, sender and server id, until another takes its record id |
| SecureStorage.SyncReconciler.Run | packages/client-db/src/sync/reconciler.ts:129-170 | after any awaited pushes, identity writes and wipes, each channel's stored session is the fold of the ratchet step over its own successful pushes since the last wipe, every entry opens, and the messages are those of the pushes opened |
| SecureStorage.OtherChannelsDoNotMatter | packages/client-db/src/sync/reconciler.ts:136-147 | a channel's session depends on its own pushes and the wipes only |
| Search.WordsIff | packages/client-db/src/search/search.ts:28-32 | a text has these terms, in this order, if and only if it is made of them, each free of white space and not empty, with gaps of white space around and between |
| Search.QueryTermsAreWords | packages/client-db/src/search/search.ts:28-32 | the terms of a query are its words in lower case, whatever white space surrounds them |
| Search.CleanDropsOneStar | packages/client-db/src/search/search.ts:57-58 | one trailing star is dropped, and nothing else |
| Search.ContainsIffOccurs | packages/client-db/src/search/search.ts:57-64 | the test of a term succeeds exactly when the term, less one trailing star, is a substring |
| Search.TryTerm | packages/client-db/src/search/search.ts:57-73 | what one term adds to score and snippets, or that it is missing |
| Search.MatchMessage | packages/client-db/src/search/search.ts:48-74 | the loop with its early exit gives a hit exactly for messages that match every term |
| Search.ScoreCountsBoundaries | packages/client-db/src/search/search.ts:66-68 | a match scores five per term and five more per term first found at a word start |
| Search.SnippetShowsPassage | packages/client-db/src/search/search.ts:70-73 | a snippet shows the matched passage in its original spelling |
| Search.AllHits | packages/client-db/src/search/search.ts:45-83 | the outer loop collects the hits in collection order |
| Search.MatchesIffEveryTermOccurs | packages/client-db/src/search/search.ts:51-64 | a message matches exactly when every term is a substring of it |
| Search.SortedIsOrdered | packages/client-db/src/search/search.ts:86-93 | the sort orders by score, then time, then place in the collection |
| Search.OrderIsUnique | packages/client-db/src/search/search.ts:86-93 | there is one such order, so every stable sort gives it |
| Search.RankingIsExact | packages/client-db/src/search/search.ts:45-93 | the ranking holds exactly the matching messages, each once, with score and snippets, in that order |
| Search.RankingIsByScoreTimePlace | packages/client-db/src/search/search.ts:86-93 | of two hits the earlier has the higher score, at equal scores the later time (a missing one is zero), at equal times the earlier place |
| Search.FoundIffEveryTermIsThere | packages/client-db/src/search/search.ts:48-64 | a message is found exactly when its text has every term, less one star, somewhere in lower case |
| Search.HitsTellTheTruth | packages/client-db/src/search/search.ts:48-82 | a hit holds the message at its place, five points per term and five per term first found at the start of a word, and for every term a snippet around its first occurrence |
| Search.RankingIgnoresTermOrder | packages/client-db/src/search/search.ts:56-93 | permuting the terms keeps messages, scores and order |
| Search.MoreTermsNarrow | packages/client-db/src/search/search.ts:51-64 | further terms never add a match |
| Search.InChannel | packages/client-db/src/search/search.ts:41-43 | the channel filter keeps exactly that channel's messages, or all without a channel |
| Search.InChannelIsSubsequence | packages/client-db/src/search/search.ts:41-43 | it reads the collection at the places of the shown messages, each once and in increasing order |
| Search.RunSearch | packages/client-db/src/search/search.ts:27-99 | no terms find nothing; otherwise the result is the requested page of the ranking |
| Search.PageHolds | packages/client-db/src/search/search.ts:95-98 | a page holds the items from the offset, at most the limit; fifty without a limit or with zero |
| Search.NegativeOffsetCountsFromEnd | packages/client-db/src/search/search.ts:95-98 | a negative offset counts from the end while the page ends before it |
| Search.NegativeOffsetMissesLastPage | packages/client-db/src/search/search.ts:95-98 | a page of negative offset that would end at the end is empty |
| Search.PagesConcatenate | packages/client-db/src/search/search.ts:95-98 | consecutive pages of one size concatenate to the ranking with no gap and no repeat |

## Left out

- The optimistic outbox (`packages/client-db/src/sync/outbox.ts`): it inserts a record as pending, dispatches it, and overwrites its status and sequence number as the send succeeds, fails or is acknowledged.
- Runs with several committers, and agreement of trees among members that do not commit: the code does not maintain either.
- Commits of other groups: applying a commit does not check the group id, so runs are over the commits of one log.
- The confirmation tag and the path key of a commit are never read; the tag is not modelled, the key is carried along.
- JSON, base64 and hex encoding of keys and states around the wasm functions: values are passed as they are, so malformed encodings are not modelled.
- The wasm functions for media frames make a new transformer per call; the results about runs are about one transformer.
- SecureStorage.HexToBytes: models the loop used where there is no `Buffer`; how `Buffer` treats text that is not hex is not modelled.
- Store operations that throw during a flush, and other writers to the store: the reconciler is the only writer here, and a channel record is a value, not a shared object.
- Concurrent first calls for the cached key, and overlapping pushes on one channel: pushes are awaited one after another.
- Lower-casing that changes the length of a text: it maps one character to one character here.
- Search.QueryTermsAreWords: takes lower-casing to keep white space white and nothing else, as Unicode case mapping does.
- Collisions and key reuse inside the primitives: they are free constructors, so HMAC's padding of salts, for instance, is not visible.
- The Go services, the React client, the FFI layer, the ratchet internals and the canned-reply module are not part of this model.
