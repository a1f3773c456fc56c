# Verification of trino-core

trino-core is the protocol core of a messenger: a Double Ratchet session, the X3DH handshake
that starts it, signed prekeys that are rotated and retained, signed group rosters, and the
time-based codes that guard a vault. This project models these parts in Dafny and proves what
they promise over all inputs, all runs and all orders of delivery.

`dafny verify dfyconfig.toml` checks the whole project.

## What is modelled

**Primitives.** Keys and ciphertexts are terms of a free algebra (`Crypto`): a Diffie-Hellman
output is the unordered pair of two public images, the key-derivation functions are
constructors, and a ciphertext opens only under an equal key, nonce and associated data.
Signatures are a parameter (`Identity.Scheme`) of which only correctness is assumed, where it
is needed, as a `requires`. HMAC is a function parameter of the one-time codes. Keys, nonces
and identifiers that the program draws at random, and clock readings, are arguments.

**A session** is specified by functions on values (`SessionSpec`): what each call returns and
what state it leaves, error by error. The class `Ratchet.RatchetState` holds the program's own
fields, updates them in the program's own loops, takes a snapshot and restores it on failure,
and each of its methods is proved to compute exactly those functions. Its skipped keys are a
map and an order list; `SkippedStore` relates the pair to one queue (`KeyQueue`), oldest first,
cut to its newest 2000 entries. A list that misses keys, as in sessions saved before the list
existed, is allowed everywhere: the unlisted keys stand, sorted, before all others.

**Two parties and a network** form a state machine (`World`). The network reorders, drops,
duplicates, reflects and re-addresses messages and puts any header and nonce on any ciphertext
it has carried, on noise, and on ciphertexts of its own under keys that are not the session's. `Inv` ties both sides to one schedule of root keys and chains and accounts for
every message number. It holds at the start (`StartHasInv`), after every step and so after
every run; `Guarantees` draws the consequences. `Runs` drives two session objects with the same
events and shows that they end where the model does, so the guarantees hold of the objects.
`Burst` and `BurstRuns` treat the orders in which a burst on a new chain can arrive.

**Identities.** `PrekeyHistory` records every prekey an identity issued and every clock reading
its rotation calls saw, backward ones included. One history invariant yields the retention
guarantee, the bound on retired keys, the restoration of missing retirement times (`Vault`) and
agreement of handshakes made from any bundle ever published (`Handshake`), whose sessions start
in a state that satisfies the two-party invariant.

**Groups.** `Json` prints compact JSON and shows that no two values print alike, whatever may
follow them; `JsonReader` reads it back by the grammar. `RosterBytes` derives exactly which rosters share their signed bytes, `Roster`
proves the validation pass and the exact outcome of each builder, and `RosterUpdates` treats
the decision about incoming rosters as a register that members update in any order.

**Codes.** `Base32` proves the 32-bit accumulator loop against the bit string of the input and
`Totp` the acceptance window against RFC 6238 and RFC 4226.

## Where the code keeps less than its reader might expect

* A burst of up to 1001 messages on a new chain opens completely in every order, but the state
  it leaves depends on the order: as many of the oldest banked keys are lost as were in the way
  of the message that came furthest ahead of its turn (`Burst.EveryOrderOpens`). All orders leave
  the same state exactly if the burst is a single message or the keys banked when it is due, the
  keys of the old chain that the step of the ratchet skips over and all but one of the burst's
  fit under the cap of 2000 together (`BurstRuns.BurstOrderIffRoom`). A run in which they do
  not, with 1 banked, 1000 skipped and a burst of 1001, is `BurstRuns.OrderCanMatter`.
* Two different rosters of the same epoch, which an admin can sign
  (`RosterUpdates.TwoVersionsOfOneEpoch`), leave members with whichever arrived first: the order
  of arrival is immaterial exactly if no two eligible rosters share the highest epoch
  (`RosterUpdates.OrderIrrelevantIff`).
* A builder's next epoch wraps at the largest 64-bit number in builds without overflow checks,
  which is what is modelled, and panics in builds with them. A roster with a wrapped epoch is
  refused as stale by everyone it lists (`RosterUpdates.ChangeDecision`).
* An identity can start a group only if its three public keys differ from each other
  (`Roster.CreateOutcome`); the check against duplicates also looks within one member.
* The byte after the version of a vault file is written as zero and never read, so files that
  differ there decode to the same vault (`Vault.DecodeVault`).

## Model

| member | source | states |
|---|---|---|
| `Deliveries.RunKeepsInv` | src/ratchet.rs:142-242 | the two-party invariant holds after every run of sends and deliveries, whatever the network does |
| `Deliveries.StepKeepsInv` | src/ratchet.rs:142-186 | one send or one delivery, accepted or refused, keeps the invariant |
| `Deliveries.DeliverKeepsInv` | src/ratchet.rs:188-242 | a delivery of any producible wire keeps the invariant, in particular when it steps the ratchet |
| `Invariant.SendKeepsInv` | src/ratchet.rs:142-169 | a send keeps the invariant and puts exactly the honest wire of the new message on the network |
| `Deliveries.StartHasInv` | src/ratchet.rs:103-140 | the sessions the two constructors make satisfy the invariant |
| `Deliveries.NextKeeps` | src/ratchet.rs:337-363 | a ratchet step lands the receiver two epochs further, on the start of the newest chain, with all undelivered messages of the old chain accounted for |
| `Guarantees.SidesAgree` | src/ratchet.rs:337-382 | in every reachable world the epochs differ by exactly one, the root keys by one exchange, the receiving chain key of the side ahead advanced by the outstanding messages is the peer's sending chain key, and each side's root, sending and receiving key is the one that the shared schedule has for its epoch |
| `Guarantees.Conservation` | src/ratchet.rs:314-340 | every message ever sent is on the receiving side in exactly one class: accepted, banked, among the oldest keys that a delivery found above the cap of 2000, or still ahead |
| `Guarantees.EvictedOnlyByCap` | src/ratchet.rs:269-292 | the cap is the only cause of loss: an accepted delivery takes out the banked key it used, or leaves the newest 2000 of the old and its own keys, and what is gone are exactly the oldest above that number |
| `Guarantees.NothingInvented` | src/ratchet.rs:248-276 | whatever is accepted, banked or evicted was sent by the peer |
| `Guarantees.DeliversExactly` | src/ratchet.rs:188-242 | delivering a sent message succeeds if and only if it was not accepted, its key was not evicted, and it is banked or within both gaps of 1000; it yields the text that was encrypted |
| `Guarantees.OnlyGenuineAccepted` | src/ratchet.rs:232-241 | an accepted wire is a message the peer sent to this side, with header, nonce and ciphertext unaltered |
| `Guarantees.ForeignRefused` | src/ratchet.rs:232-241 | noise and ciphertexts under keys that do not descend from this session's master secret are refused, whatever their header |
| `Guarantees.AtMostOnce` | src/ratchet.rs:200-209 | over any run no message is accepted twice, and each acceptance yielded the text sent |
| `Guarantees.RedeliveryRefused` | src/ratchet.rs:171-186 | redelivering a message whose key was used or evicted changes nothing |
| `Guarantees.RedeliveryIsReplay` | src/ratchet.rs:200-209 | such a redelivery fails as a replay while its chain is the current one or among the 8 retired last |
| `Guarantees.OwnKeysKept` | src/ratchet.rs:216-222 | in every reachable world the keys an accepted delivery banks are new, and none of them is evicted by it |
| `TwoParty.Authentic` | src/ratchet.rs:188-242 | acceptance comes from the bank, the current chain or the one next chain, and only for genuine messages |
| `TwoParty.KeyAtOrigin` | src/ratchet.rs:365-382 | equal message keys of the schedule come from the same exchange, chain and number |
| `SessionSpec.HeaderInjective` | src/ratchet.rs:384-391 | associated data followed by an encoded header determines both |
| `SessionSpec.HeaderLayout` | src/ratchet.rs:384-391 | the 40 header bytes are the ratchet key, then the length of the previous chain and the message number, each four bytes with the high one first |
| `Refusals.DeliveryOutcome` | src/ratchet.rs:188-242 | for every session and message: from which key it opens, or the one error it is refused with, in terms of the session and the message alone |
| `Refusals.OpenOutcome` | src/ratchet.rs:232-241 | a ciphertext opens if and only if it was sealed under the key, nonce, associated data and header; otherwise which error |
| `Refusals.BadRatchetKey` | src/ratchet.rs:393-409 | a ratchet key that does not decode to 32 bytes is refused first, with its length |
| `Refusals.SendOutcome` | src/ratchet.rs:142-169 | sending fails if and only if there is no sending chain, and otherwise yields the wire with the session's own key and counters |
| `SessionLaws.DecryptKeepsSound` | src/ratchet.rs:188-242 | one accepted delivery, of any message, keeps a session sound: no key banked twice, at most 2000 of them, at most 8 retired peer keys, all different and none the current one |
| `SessionLaws.FreshStaysSound` | src/ratchet.rs:103-242 | a fresh session of either kind is sound after every sequence of sends and deliveries of arbitrary messages |
| `SessionLaws.NewlyBankedBounded` | src/ratchet.rs:216-222 | one accepted delivery derives at most 2 times 1000 keys to bank |
| `SessionLaws.OwnKeysSurvive` | src/ratchet.rs:270-292 | from any store, even an over-full legacy one, a delivery that banks fresh keys evicts none of them |
| `SessionLaws.NextChainOpened` | src/ratchet.rs:211-241 | the exact effect of a delivery under a new ratchet key |
| `KeyQueue.RenderInjective` | src/ratchet.rs:244-246 | different pairs of key and number have different textual ids |
| `KeyQueue.RenderText` | src/ratchet.rs:244-246 | the text is the key in lowercase hexadecimal, a colon and the shortest numeral of the number |
| `Bytes.HexText` | src/crypto.rs:130-132 | digit 2i of the lowercase text is the high half of byte i, digit 2i + 1 the low half |
| `Bytes.HexDecodeIff` | src/crypto.rs:134-136 | exactly the texts of an even number of digits of either case decode, to the bytes they spell |
| `KeyQueue.BankAllFresh` | src/ratchet.rs:269-292 | banking fresh keys one by one, evicting each time, leaves the newest 2000 of all |
| `KeyQueue.NewestSplits` | src/ratchet.rs:278-292 | eviction leaves the newest 2000 entries, or all if there are fewer, removes exactly the oldest and keeps the order of the rest |
| `SkippedStore.QueueFacts` | src/ratchet.rs:50-55 | map and list stand for a queue that names the map's keys once each |
| `SkippedStore.LookupAgrees` | src/ratchet.rs:254-258 | looking up the map is finding in the queue |
| `SkippedStore.InsertNew` | src/ratchet.rs:270-276 | inserting an unknown id and appending it to the list puts it at the end of the queue |
| `SkippedStore.InsertOld` | src/ratchet.rs:271-273 | overwriting a key keeps its place |
| `SkippedStore.RemoveKey` | src/ratchet.rs:264-265 | consuming a key removes it from the queue, listed or not |
| `SkippedStore.LengthTest` | src/ratchet.rs:298-301 | list and map have the same length if and only if the list misses no key |
| `SkippedStore.Adopted` | src/ratchet.rs:298-312 | adoption yields a complete, duplicate-free list and leaves the queue unchanged |
| `SkippedStore.PopOldest` | src/ratchet.rs:287-290 | removing the front of a complete list from list and map drops the front of the queue |
| `Ratchet.RatchetState.Initiator` | src/ratchet.rs:103-124 | the initiator's fields are those of the specified session |
| `Ratchet.RatchetState.Responder` | src/ratchet.rs:126-140 | the responder's fields are those of the specified session |
| `Ratchet.RatchetState.Encrypt` | src/ratchet.rs:142-169 | sending computes the specified wire and session, or fails without a change |
| `Ratchet.RatchetState.Decrypt` | src/ratchet.rs:171-186 | receiving computes the specified text and session; on failure every field is as before |
| `Ratchet.RatchetState.DecryptInner` | src/ratchet.rs:188-242 | the same result before any roll-back |
| `Ratchet.RatchetState.TrySkippedMessageKey` | src/ratchet.rs:248-267 | a banked key opens its message and is consumed only if it does |
| `Ratchet.RatchetState.SkipMessageKeys` | src/ratchet.rs:314-335 | the loop banks exactly the keys of the gap, in order, and advances the chain past them |
| `Ratchet.RatchetState.BankSkippedKey` | src/ratchet.rs:269-276 | insertion and eviction on map and list are one step of the bounded queue |
| `Ratchet.RatchetState.EvictOldestSkippedKeys` | src/ratchet.rs:278-292 | eviction ends at the lesser of the size and 2000, drops the oldest keys only, and its list never runs out first |
| `Ratchet.RatchetState.AdoptUnorderedSkippedKeys` | src/ratchet.rs:294-312 | the new list is the sorted unlisted keys followed by the old list, and the queue is unchanged |
| `Ratchet.RatchetState.RetireCurrentPeer` | src/ratchet.rs:341-348 | the previous peer key is remembered once, the list cut to its latest 8 |
| `Ratchet.RatchetState.DhRatchetStep` | src/ratchet.rs:337-363 | the step computes the specified session |
| `Runs.Handle` | src/ratchet.rs:142-186 | one event on two session objects: the object concerned makes the model's step, the reply is the model's, and a refused delivery leaves every field of both as it was |
| `Runs.HandleAll` | src/ratchet.rs:142-186 | a whole run on two session objects returns the model's replies and ends in the model's sessions |
| `Runs.FreshRun` | src/ratchet.rs:103-186 | objects made by the two constructors and driven by a legal run hold the sessions of a reachable world |
| `Runs.FieldsFromView` | src/ratchet.rs:40-60 | with complete order lists the abstract session determines every field of the object |
| `Runs.RefusalsInvisible` | src/ratchet.rs:171-186 | a pair of objects that handles all events and a pair in an equal state that handles only those not refused give the same other replies and end in equal states, with complete order lists in equal fields |
| `Burst.SendAllIsBurst` | src/ratchet.rs:142-169 | encrypting on a fresh chain yields the scheduled message for each number |
| `Burst.EveryOrderOpens` | src/ratchet.rs:188-267 | a burst of up to 1001 messages on a chain the session has not seen opens to its own texts in every order and leaves no key of its chain banked; the session left is given exactly, with the number of old keys lost |
| `Burst.PeakIsGreatest` | src/ratchet.rs:314-335 | the peak of an order, which decides that number, is the furthest any message comes ahead of its turn |
| `Burst.SameForAllOrdersIffRoom` | src/ratchet.rs:188-335 | the final session is the same for all orders if and only if the keys banked once the ratchet has stepped and all but one of the burst's fit under the cap |
| `Burst.FirstTurns` | src/ratchet.rs:211-219 | whichever message of a burst comes first steps the ratchet with the same result |
| `Burst.SentBurstDelivered` | src/ratchet.rs:142-242 | from encryption to decryption: what is sent on a fresh chain opens in every order, with the exact session left |
| `BurstRuns.ReadyForBurst` | src/ratchet.rs:211-219 | in every reachable world a side whose peer has just stepped has no trace of the peer's new chain and will derive its start, and the keys its step skips over are new |
| `BurstRuns.BurstArrives` | src/ratchet.rs:142-242 | in every reachable world such a peer's burst opens completely in every order, with the exact session left |
| `BurstRuns.BurstOrderIffRoom` | src/ratchet.rs:188-335 | in every reachable world the order is immaterial if and only if the burst is one message or the keys banked now, those the step skips over and all but one of the burst's are at most 2000 |
| `BurstRuns.OrderCanMatter` | src/ratchet.rs:188-335 | a reachable world with one key banked, 1000 messages outstanding and a burst of 1001, in which the order matters |
| `Identity.OwnBundleVerifies` | src/identity.rs:227-285 | the bundle an identity publishes passes both checks |
| `Identity.BundleShowsKeys` | src/identity.rs:227-243 | what a peer decodes from a published bundle are the identity's own public keys and its signatures |
| `Identity.VerifyBundleIff` | src/identity.rs:245-257 | a bundle passes if and only if identity key, prekey and signature decode to 32, 32 and 64 bytes and the signature verifies |
| `Identity.VerifyBundleBindingIff` | src/identity.rs:268-285 | it passes the stricter check if and only if moreover the identity key signed the DH key followed by the Nostr key |
| `Identity.SwappedPrekeyRefused` | src/identity.rs:245-285 | an honest bundle whose prekey was exchanged fails both checks when the signature is good for its own message only |
| `Identity.RotationOutcome` | src/identity.rs:301-343 | for every identity and clock reading: the current key is afterwards younger than 2 days, kept if it was so before, and otherwise replaced by the generated pair under the next id, signed and dated now; exactly the keys retired less than 30 days ago stay |
| `Identity.LookupOutcome` | src/identity.rs:287-299 | lookup gives the current key if it has the id, else the first retired one that has it, else nothing |
| `Identity.IdentityState.RotateSignedPrekeyIfDue` | src/identity.rs:307-343 | rotation and expiry compute the specified identity, report a change if and only if there was one, keep the current key if and only if it was younger than 2 days, and leave one that is |
| `Identity.IdentityState.ConsumeOneTimePrekey` | src/identity.rs:345-351 | takes out the first one-time prekey with the id, or changes nothing |
| `PrekeyHistory.CallsKeepHistory` | src/identity.rs:307-343 | the history invariant after every sequence of rotation calls with arbitrary clock readings |
| `PrekeyHistory.RetainedIsSuffix` | src/identity.rs:335-337 | expiry drops a prefix of the retired keys |
| `PrekeyHistory.MaxIdIsCurrent` | src/identity.rs:311-322 | the highest id in use is the current one |
| `PrekeyHistory.RetiredKeysOrderly` | src/identity.rs:307-343 | retained ids are consecutive and end at the current one, retirement times are at least 2 days apart, and at most 15 retired keys are held |
| `PrekeyHistory.PublishedPrekeyResolves` | src/identity.rs:287-299 | the id of any prekey ever published resolves to that prekey or to nothing, and to nothing if and only if some call since its retirement came 30 days after it or later |
| `PrekeyHistory.CurrentIsYoung` | src/identity.rs:307-330 | in every identity with a past the current prekey was younger than 2 days at the last call |
| `PrekeyHistory.IssuedIffOld` | src/identity.rs:310-330 | a call issues a new prekey if and only if it finds the current one 2 days old |
| `PrekeyHistory.CreatedIsNew` | src/identity.rs:190-225 | an identity as created starts such a history: prekey 1 dated now, 50 one-time prekeys numbered from 1, nothing retired |
| `Vault.NextHigherIsNext` | src/vault.rs:253-264 | among consecutive ids the next higher one belongs to the next key |
| `Vault.LegacyTimeOutcome` | src/vault.rs:245-264 | for every stored identity and id: the time put in is the creation time of the first key with the least higher id, or that of the current key if there is none |
| `Vault.SerializedFields` | src/vault.rs:167-200 | each field is stored under its own name, the current prekey without and the retired ones with their retirement time |
| `Vault.VaultLayout` | src/vault.rs:130-139 | the offsets of magic, version, reserved byte, salt, nonce and ciphertext |
| `Vault.ErasedTimesRestored` | src/vault.rs:167-264 | for every identity that rotations lead to, erasing any of its stored retirement times and loading restores it exactly |
| `Vault.DecodeVault` | src/vault.rs:141-165 | accepts exactly the long enough files with the magic bytes, reads each field from its offset, and encoding the result gives the file back with its reserved byte cleared |
| `Vault.EncodeVaultInjective` | src/vault.rs:130-139 | different vaults encode differently |
| `Vault.RoundTrip` | src/vault.rs:130-165 | decoding an encoded vault returns it |
| `Handshake.RespondTo` | src/x3dh.rs:94-134 | responding computes the specified result and uses up exactly the one-time prekey named, also when it fails |
| `Handshake.InitiateOutcome` | src/x3dh.rs:58-92 | for every bundle: refused as invalid if and only if its prekey signature fails, then only for a malformed DH key; otherwise the three exchanges in order, the message and the associated data |
| `Handshake.RespondOutcome` | src/x3dh.rs:94-134 | for every message: which error comes first, or the secret of the three exchanges in order, with a fourth at the end for a one-time prekey, which is used up |
| `Handshake.HandshakeAgrees` | src/x3dh.rs:58-134 | for any bundle ever published and any later rotations: the responder refuses it if and only if its prekey was found expired, and otherwise both sides hold the same secret and associated data and the responder gets the bundle's keypair |
| `Handshake.OneTimeOnce` | src/x3dh.rs:117-121 | a message that used up a one-time prekey is refused with the unknown-prekey error when it comes again; one without is answered alike |
| `Handshake.ExchangesAgree` | src/x3dh.rs:67-115 | the three exchanges agree from both ends, in the same order |
| `Handshake.HandshakeStartsSession` | src/x3dh.rs:49-56 | the sessions started from such a handshake satisfy the two-party invariant |
| `Handshake.FirstMessageOpens` | src/x3dh.rs:49-134 | however old the bundle, while its prekey is retained the initiator's first message opens at the responder to the text sent |
| `Json.PrintUnique` | src/group.rs:216-219 | printed values, followed by anything that can follow a value in an array, are equal only if the values and what follows are |
| `Json.EscapeUnique` | src/group.rs:197-219 | escaped strings up to their closing quote are read back in one way only (section 7 of RFC 8259) |
| `Json.PrintInjective` | src/group.rs:219-219 | different values print differently |
| `JsonReader.PrintReads` | src/group.rs:197-219 | a reader after the grammar of RFC 8259 reads every printed value, before anything that may follow it, back as itself |
| `JsonReader.EscapeIsShortest` | src/group.rs:197-219 | no character is escaped that need not be, nor with a longer escape than the reader knows |
| `Sorting.SortedFormUnique` | src/group.rs:216-216 | two sorted permutations of one collection are the same sequence when the key tells elements apart |
| `Sorting.SortCorrect` | src/group.rs:216-216 | the sort yields an ordered permutation |
| `Sorting.LeIff` | src/group.rs:216-216 | the order of sorting: one text begins the other, or the first bytes that differ decide |
| `RosterBytes.SortedMembersIff` | src/group.rs:201-216 | the sorted member values are equal if and only if the members are permutations of each other |
| `RosterBytes.SignedBytesIff` | src/group.rs:181-221 | two rosters have the same signed bytes if and only if they agree on group id, name, photo apart from its thumbnail, admin, epoch and the members up to order |
| `RosterBytes.SignedBytesFormat` | src/group.rs:181-221 | read back, the signed bytes are the domain text and one array of group id, name, photo or null, admin key, members and epoch, the members with their eight fields in order, ascending by their printed form |
| `Roster.ValidateRoster` | src/group.rs:287-332 | the nested loops with a set of seen keys find exactly the first fault, and none if and only if the roster is well-formed: 1 to 128 members, the admin among them, all keys of all kinds different, all members bound, signature valid |
| `Roster.ValidateOutcome` | src/group.rs:287-332 | each fault is reported if and only if it is there and none of those looked for before it is |
| `Roster.SignatureValidIff` | src/group.rs:316-330 | admin key and signature decode to 32 and 64 bytes that verify over the signed bytes |
| `Roster.MemberIsBoundIff` | src/group.rs:243-257 | a member is bound if and only if its six texts are lowercase hexadecimal of the right length and its identity key signed the prekey and the two transport keys |
| `Roster.BundleRoundTrip` | src/group.rs:138-166 | a bundle made into a member and back is the same |
| `Roster.SameContentsSameValidity` | src/group.rs:186-188 | reordering members or exchanging the thumbnail never changes validity |
| `Roster.SigningOutcome` | src/group.rs:259-285 | signing by the admin fails exactly for the faults other than the signature, with the matching error |
| `Roster.BuilderOutcome` | src/group.rs:357-451 | every builder, for every roster and identity: anyone but the admin is turned away first, removing the admin is refused, and otherwise the changed roster is signed as the next epoch or refused for its first fault |
| `Roster.CreateAttempted` | src/group.rs:338-355 | a group is created by signing the roster of its one member as epoch 0 |
| `Roster.OthersPart` | src/group.rs:402-407 | removal decides for each member by itself and keeps the order of the others |
| `Roster.CreateOutcome` | src/group.rs:338-355 | an identity can start a group with its own bundle if and only if its three public keys differ |
| `Roster.AddOutcome` | src/group.rs:364-391 | adding to a valid roster leaves a listed identity alone and otherwise succeeds if and only if there is room and the keys are new and bound; each failure has its error |
| `Roster.RemoveOutcome` | src/group.rs:393-417 | removing anyone but the admin always succeeds and takes out exactly that identity |
| `Roster.SetOutcome` | src/group.rs:419-451 | name and photo of a valid roster can always be changed by its admin |
| `RosterUpdates.ChangeKeepsValid` | src/group.rs:364-451 | builders given a valid roster make valid rosters of the same group and admin, one epoch on or unchanged |
| `RosterUpdates.ChangeDecision` | src/group.rs:457-511 | a holder of the previous version refuses a new one that does not list them, refuses it as stale if its epoch wrapped, and accepts it otherwise |
| `RosterUpdates.VersionsAreChronicle` | src/group.rs:338-451 | all versions of a group are valid, keep group and admin, and are told apart by rising epochs |
| `RosterUpdates.BuiltRosters` | src/group.rs:338-511 | from creation on, a holder of any version decides about any other by membership and epoch alone |
| `RosterUpdates.EvaluationOutcome` | src/group.rs:457-511 | for every roster held or not, every arrival, sender and receiver: each rejection, the invitation and the acceptance if and only if its exact condition holds |
| `RosterUpdates.HeldIsFirstOfNewest` | src/group.rs:457-511 | after any arrivals the held roster is the first of the newest among the eligible ones, and its epoch never went down |
| `RosterUpdates.OrderIrrelevantIff` | src/group.rs:457-511 | the order of arrival is immaterial if and only if no two different eligible rosters share the highest epoch |
| `RosterUpdates.TwoVersionsOfOneEpoch` | src/group.rs:419-511 | two renamings of one valid roster by its admin are both eligible, and the one that arrives first stays |
| `RosterUpdates.SameElementsSameEnd` | src/group.rs:457-511 | nor do repeats matter then |
| `RosterUpdates.MembersConverge` | src/group.rs:479-511 | members who receive the admin's versions in any order, with repeats and among ineligible rosters, end at the newest that lists them |
| `Base32.ToBase32` | src/totp.rs:62-79 | the accumulator loop yields, for each five bits of the input, the letter of exactly these bits, A to Z then 2 to 7, the last filled up with zeros (section 6 of RFC 4648), ceil(8n/5) letters in all |
| `Base32.LowBitsSurvive` | src/totp.rs:68-68 | the bits shifted out of the 32-bit word are never among those still pending |
| `Base32.NumberSplit` | src/totp.rs:67-74 | the number that bits spell splits at any place |
| `Base32.Base32Injective` | src/totp.rs:62-79 | different inputs, of whatever lengths, have different encodings |
| `Totp.TruncatedWord` | src/totp.rs:20-24 | the truncated digest is the low 31 bits of the big-endian word at the offset in its last four bits (section 5.3 of RFC 4226) |
| `Totp.CounterSpelled` | src/totp.rs:13-14 | the eight authenticated bytes spell the counter to base 256, the most significant first |
| `Totp.CodeOutcome` | src/totp.rs:12-28 | the code is the one string of its width that denotes the truncated MAC of the spelled counter modulo the power of ten |
| `Totp.PaddedIff` | src/totp.rs:26-27 | a padded code is the one string of its width that denotes its number |
| `Totp.ConstantTimeStrEq` | src/totp.rs:51-60 | accumulating the differences of all bytes decides equality |
| `Totp.IsTotpCodeValid` | src/totp.rs:35-49 | the window loop accepts exactly the six digits, spaces aside, that are a code for one of the three readings |
| `Totp.AcceptedIff` | src/totp.rs:35-49 | for every reading of the clock, exactly six digits that denote the low 31 bits, modulo a million, of the MAC word for the spelled counter at the reading or 30 seconds to either side (section 5.2 of RFC 6238, section 5.3 of RFC 4226) |
| `Totp.Neighbours` | src/totp.rs:41-42 | from the second time step on these are the current counter and its two neighbours |
| `Totp.CleanEach` | src/totp.rs:36-36 | cleaning takes out exactly the characters of Unicode's white space, each by itself |
| `Totp.CodeStaysValid` | src/totp.rs:12-49 | a code is accepted within 30 seconds of its time on either side, however it is spaced |

## Left out

- The primitives (X25519, Ed25519, AES-GCM, HKDF, PBKDF2, HMAC, secp256k1) are symbolic or
  parameters; the random output for a non-contributory exchange (src/identity.rs:180) is outside
  honest runs, and key-derivation and encryption calls do not fail.
- Zeroization and `Drop` (src/ratchet.rs:62-86): they have no effect on what the protocol computes.
- Secrecy and what an attacker can learn: of ciphertexts under keys that descend from the
  session's master secret the network has only those it has carried.
- Message numbers: `World.Legal` keeps a side from sending more than 2^32 - 1 messages on one
  chain; beyond that the program's counter panics or wraps, which `SessionSpec` models as a wrap.
- Prekey ids: runs are below the saturation of the 32-bit id, and clock differences are
  unbounded integers, so the overflow of 64-bit time differences is not modelled.
- The map of skipped keys is keyed by the pair of key and number rather than by its text, which
  `KeyQueue.RenderInjective` justifies; the list's sort is by the text.
- `Ratchet.RatchetState.Load` requires a saved list without duplicates that names saved keys
  only; other corrupted states are not modelled.
- Wire messages carry their hexadecimal fields decoded, with a marker for text that does not decode.
- JSON parsing, the derived serialisers and the text form of sessions, messages and bundles;
  serialised identities are records whose key material is already decoded, and the TOTP secret
  stored beside them is left out.
- The fields for a one-time prekey in a bundle, which the program always leaves empty; one-time
  prekeys are modelled on the responding side only.
- `seal_vault` and `unseal_vault` beyond the file format, since they are calls into libraries;
  `otpauth_uri`, `totp_now` and the readings of the clock.
- `Totp.TotpCode` takes at most nine digits: with more the program's power of ten overflows.
- Text is modelled as its bytes in UTF-8; library sorts are a function proved to sort, not an
  in-place algorithm.
- Call signalling and envelopes (src/call_signal.rs, src/envelope.rs): field checks after a parse,
  each settled by one branch.
