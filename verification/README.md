# Verified models of the Signal protocol core

A Dafny model of the stateful protocol code of a Go implementation of the Signal protocol, with
proofs about every input, every run and every reachable state. Verify with
`dafny verify dfyconfig.toml`.

Three layers are modelled.

**The post-quantum ratchet, SPQR (`spqr/`).** Two parties exchange ML-KEM-768 material over a network
that may lose, reorder and duplicate.

- `Bits`, `Gf16`, `Gf16Inverse`, `Gf16Code`: the field GF(2^16), from the bit loops up to inverses.
- `Poly`, `PolyCode`: polynomials and Lagrange interpolation.
- `Erasure`, `ErasureCode`, `Sorting`: the erasure code, on values and as the encoder and decoder objects;
  `ErasureAny`: what a decoder makes of chunks from anyone.
- `SpqrCrypto`, `SpqrStates`: the primitives as parameters, and the eleven handshake states.
- `SpqrProtocol`, `SpqrProgress`: two honest parties, what every run keeps, and progress.
- `SpqrAuthentic`, `SpqrSecrets`: what one party takes from anyone, and where secrets and authenticators
  come from.
- `SpqrHistory`, `SpqrChain`, `SpqrChainCode`: the chain of message keys, on values and as objects.
- `SpqrState`, `SpqrStateCode`, `SpqrVersion`: `Send`, `Receive` and `Clone` against any peer, on values
  and as an object, and how a version is settled.
- `SpqrLedger`: every salt sent and received over any calls with any messages.
- `SpqrSystem`: whole states of two honest parties.
- `SpqrWire`, `Codec`, `SpqrCodec`, `SpqrChainCodec`, `SpqrStateCodec`: message and state codecs, and cloning.
- `Spelling`, `SpqrWireSpelling`, `SpqrSpelling`, `SpqrStateSpelling`: exactly which bytes each of them reads.

**The Double Ratchet (`ratchet/`)**, sections 3.3 to 3.5 of the Double Ratchet specification, in the
variant of this code: skipped keys are kept for the current remote key only, and remote keys already
seen are refused.

- `Ratchet`, `RatchetCode`: the operations, on values and as an object.
- `RatchetReplay`, `RatchetHistory`, `RatchetAgreement`: replay safety, what is stored and accepted after any
  calls, key agreement.
- `RatchetCodec`, `RatchetSpelling`: the codec, and exactly which bytes it reads.

**Records.** `SenderKeys` and `SenderKeysCode` for `senderkeys/`; `SessionAgreement` for whole sessions
that use both ratchets, `SessionRecord` for the record of `session/` on values, and `SessionCode` for
sessions and records as objects. `Words` and `Results` hold what all of them share.

Runs are folds over arbitrary sequences of actions, so a theorem about a run holds under any schedule:
everything ever sent stays available, and any of it may be delivered at any time, any number of times.
Nothing is assumed without being a `requires`: the primitives are function-valued parameters, and
`Lawful` collects what is asked of them (`SpqrProtocol.LawsAreConsistent` shows that it can be met).
Steps of a run commit only on success. That the code does so is proved on its objects:
`SessionCode.Session.DecryptWithSession` clones both ratchets, lets a failure leave the clones half-way,
and puts them in place last (`session/wire_cipher.go:239-316`), and `SpqrChainCodec.CloneIsSame` and
`RatchetCode.RatchetState.Clone` show that the clones are faithful.

The main results, each over all inputs or all runs:

- `Gf16Inverse.DivMul`: the bit loops make a field; division undoes multiplication.
- `Erasure.RoundTrip`: any chunks in any order decode to nothing too early and to the message from then on.
- `ErasureAny.DecodesOnceEnough`, `DecodesFirst`, `DecodesMissing`: the same for chunks from anyone.
- `SpqrProtocol.EpochsAndRoles`, `NeverErrs`, `SecretsAgree`: safety of the handshake in every run.
- `SpqrAuthentic.OnlyGenuine`, `NoForgedHeader`, `NoForgedCiphertext`: no state is left without the tag, or the
  header, that it demands; under a tag of the peer only what the peer tagged gets in, or two inputs collide.
- `SpqrSecrets.SecretsAreEncapsulated`, `SecretsDetermine`, `MacKeysDetermine`: every secret handed out comes from
  a shared secret that one party encapsulated to the other, and every tag key from all secrets before it;
  equal results come from equal inputs, or two inputs collide.
- `SpqrProgress.NextEpochReachable`: from every reachable state the next epoch can be reached.
- `SpqrHistory.HistoryRefines`, `UnboundedExactly`: what the bounded key history answers to any series of
  32-bit requests, and exactly when that is what an unbounded one answers.
- `SpqrState.AlwaysInStep`: chain and handshake stay in step whatever the peer sends.
- `SpqrLedger.EachSaltOnce`, `NextReceipt`, `SendsCountUp`: over any calls with any messages no epoch and index
  gives a salt twice, what is accepted next is determined exactly, and indices count up.
- `SpqrSystem.SaltsAgree`, `RootsAgree`: in every run every accepted message gets the salt it was sent
  with, and chains at the same epoch have the same root.
- `SpqrVersion.NoDowngradeOnceHeard`: a peer that was heard cannot make the state give up its version.
- `SpqrChainCodec.CloneIsSame`, `SpqrStateCodec.SavesExactly`: when cloning a reachable state, and saving
  and restoring it, gives it back; both are equivalences.
- `SpqrWireSpelling.ReadsExactly`, `SpqrSpelling.RestoresExactly`, `SpqrStateSpelling.RestoresExactly`,
  `RatchetSpelling.RestoresExactly`: the bytes that each reader takes, and for what; all equivalences.
- `RatchetReplay.NoReplay`, `RatchetAgreement.KeysAgree`, `LengthsAnnounced`: the Double Ratchet.
- `RatchetHistory.StoredExactly`, `AcceptsCurrent`, `DuplicateExactly`, `SendsInOrder`: after any calls, which keys
  are stored, which headers are accepted or called duplicates, and what is sent next.
- `SessionAgreement.ReadsWhatWasSent`, `NoForgedMessage`: with both ratchets together, what is read is what was sent.
- `SessionCode.Record.Decrypt`, `SessionRecord.ChosenDecides`, `DecryptsExactly`: the first session of the record
  that opens a message or calls it a duplicate decides, and decrypting on objects changes that one or none.
- `SenderKeys.EachKeyOnce`, `SenderKeys.HoldsNewest`, `SenderKeys.HoldsAll`: sender keys.

Some results are exact where a simpler statement would be false.

- `Erasure.ShortMessage` shows that a message under 32 bytes never decodes, so the round trip starts at 32.
- The comparisons of the key history wrap around near 2^32. `SpqrHistory.NearTheEnd` gives requests for
  which a key that is due is refused; `SpqrHistory.UnboundedExactly` says for which series this happens.
  That every key returned is right and none is returned twice holds for all indices.
- The history keeps a window of MaxOOO + 1 places; at most MaxOOO keys are ever stored
  (`SpqrHistory.EachKeyOnce`) because the counter a move starts from is never stored.
- A message whose 32-bit counter wrapped around goes out with index 0 and never gets its salt
  (`SpqrSystem.WrappedIsLost`), so `SaltsAgree` and `ReadsWhatWasSent` are about runs in which no message
  with a salt has index 0. A counter starts again in every epoch.
- The lengths in a saved state are 32 bits wide. `SpqrStateCodec.SavesExactly` has the exact condition, and
  `SpqrStateCodec.AlwaysSaves` shows that it holds for every MaxOOO up to 39 million.
- A post-quantum state that was given up refuses every later message (`spqr/state.go:111-113`), until it
  is saved and loaded again, when it is no state at all.

## Model

| member | source | states |
|---|---|---|
| Gf16.MulComm | spqr/encoding_gf.go:24-26 | multiplication is commutative, for all pairs |
| Gf16.MulAssoc | spqr/encoding_gf.go:24-26 | multiplication is associative, for all triples |
| Gf16.MulAddLeft | spqr/encoding_gf.go:16-26 | multiplication distributes over exclusive or on the left |
| Gf16.MulAddRight | spqr/encoding_gf.go:16-26 | multiplication distributes over exclusive or on the right |
| Gf16.OneMul | spqr/encoding_gf.go:24-26 | one is the unit of multiplication |
| Gf16Inverse.FermatLittle | spqr/encoding_gf.go:35-46 | a to the power 65536 is a, for every element |
| Gf16Inverse.DivMul | spqr/encoding_gf.go:28-33 | dividing by any nonzero b and multiplying by b gives the dividend back, although division only raises b to the power 65534 |
| Gf16Inverse.NoZeroDivisors | spqr/encoding_gf.go:24-26 | a product is zero only if a factor is |
| Gf16Code.ReducedClmul | spqr/encoding_gf.go:48-67 | reducing the carry-less product of the bit loops gives the field product that the laws are about |
| Gf16Code.CarrylessProduct | spqr/encoding_gf.go:48-58 | the loop over the bits of b computes the carry-less product |
| Gf16Code.ReduceWord | spqr/encoding_gf.go:60-67 | the loop from bit 31 down to 16 computes the reduction modulo the polynomial |
| Gf16Code.Multiply | spqr/encoding_gf.go:24-26 | the two loops together compute the field product |
| Gf16Code.Power | spqr/encoding_gf.go:35-46 | square-and-multiply computes the power |
| Gf16Code.Divide | spqr/encoding_gf.go:28-33 | the result times b is a for nonzero b, and zero for b zero |
| Poly.EvalAdd | spqr/encoding_polynomial.go:48-58 | the value of a sum of polynomials is the sum of the values, at every point |
| Poly.EvalScale | spqr/encoding_polynomial.go:73-82 | the value of a scaled polynomial is the scaled value |
| Poly.EvalMulLinear | spqr/encoding_polynomial.go:60-71 | the value of a polynomial times (x + r) is the product of the values |
| Poly.InterpolateAt | spqr/encoding_polynomial.go:84-108 | the interpolated polynomial passes through every given point, for any points with distinct places |
| Poly.AgreeEverywhere | spqr/encoding_polynomial.go:84-108 | two polynomials of at most n coefficients that agree at n distinct places agree everywhere, so interpolation from any n points gives the same curve |
| PolyCode.EvalPoly | spqr/encoding_polynomial.go:34-46 | Horner's loop computes the value |
| PolyCode.AddPolys | spqr/encoding_polynomial.go:48-58 | the loop adds coefficientwise, whichever is longer |
| PolyCode.MulPolys | spqr/encoding_polynomial.go:60-71 | the double loop computes the product polynomial |
| PolyCode.ScalePoly | spqr/encoding_polynomial.go:73-82 | the loop scales every coefficient |
| PolyCode.LagrangeInterpolate | spqr/encoding_polynomial.go:84-108 | the nested loops compute the interpolated polynomial |
| Erasure.HoldsAdd | spqr/encoding_polynomial.go:234-248 | adding a chunk of a message keeps the decoder consistent with exactly the chunks received so far |
| Erasure.CurveFromPoints | spqr/encoding_polynomial.go:250-266 | the points kept, whichever arrived, determine the message's curve at every place |
| Erasure.DecodeExact | spqr/encoding_polynomial.go:268-299 | a decoder gives nothing while fewer distinct chunks than needed have arrived, and exactly the message from then on |
| Erasure.RoundTrip | spqr/encoding_polynomial.go:157-299 | for every even message of 32 to 2^20 bytes and any chunks of it, in any order and with any repetition: nothing before ceil(points/16) distinct numbers, the original message from then on |
| Erasure.ShortMessage | spqr/encoding_polynomial.go:268-282 | an even message of fewer than 32 bytes is never decoded: as soon as any chunk has arrived the decoder reports missing points |
| ErasureAny.Systematic | spqr/encoding_polynomial.go:157-169 | chunk x of a message that has 32 bytes there is those 32 bytes |
| ErasureAny.KeepsFirst | spqr/encoding_polynomial.go:234-248 | after any chunks from anyone each point kept is that of the first chunk of its number; every number below the points needed is kept, of the others no more than needed, and all of them while there are too few |
| ErasureAny.StoresFew | spqr/encoding_polynomial.go:234-248 | so never more than twice the points needed are stored |
| ErasureAny.DecodesOnceEnough | spqr/encoding_polynomial.go:268-282 | for every length from 32 bytes, whoever made the chunks, a message comes out exactly when enough different numbers have come, and nothing before |
| ErasureAny.DecodesFirst | spqr/encoding_polynomial.go:283-298 | each place of it whose chunk has come reads as the first chunk of that number says |
| ErasureAny.DecodesMissing | spqr/encoding_polynomial.go:250-298 | every other place reads as the polynomial through the needed points with the smallest numbers, which has no more coefficients than points |
| ErasureCode.PolyEncoder.Create | spqr/encoding_polynomial.go:122-139 | an encoder is made exactly for even lengths up to 2^20, starting at chunk zero; otherwise the matching error |
| ErasureCode.PolyEncoder.FillCache | spqr/encoding_polynomial.go:145-153 | the cached polynomials are the message's curves; nothing else changes |
| ErasureCode.PolyEncoder.PointAt | spqr/encoding_polynomial.go:141-155 | a point is the curve's value at its place, with the cache filled or not |
| ErasureCode.PolyEncoder.ChunkAt | spqr/encoding_polynomial.go:157-169 | a chunk depends on the message and the number alone, never on the cache |
| ErasureCode.PolyEncoder.NextChunk | spqr/encoding_polynomial.go:171-175 | the next chunk is the one numbered by the low 16 bits of the counter, which goes up by one modulo 2^32 |
| ErasureCode.PolyDecoder.NecessaryPoints | spqr/encoding_polynomial.go:225-232 | how many points a polynomial needs |
| ErasureCode.PolyDecoder.Add | spqr/encoding_polynomial.go:234-248 | the in-place loop adds the chunk as the decoder on values does |
| ErasureCode.PolyDecoder.CollectPoints | spqr/encoding_polynomial.go:272-282 | the scan over the sixteen polynomials stops at the first that decides, with the same outcome as on values |
| ErasureCode.PolyDecoder.Reconstruct | spqr/encoding_polynomial.go:283-298 | the loop writes the decoded values as bytes, interpolating only where a point is missing |
| ErasureCode.PolyDecoder.PointsInOrder | spqr/encoding_polynomial.go:250-266 | the stored points with the smallest places, in order |
| ErasureCode.PolyDecoder.DecodedMessage | spqr/encoding_polynomial.go:268-299 | the loops compute the decoding that the round trip is about |
| Sorting.SortSet | spqr/encoding_polynomial.go:252-256 | the keys of a map collected and sorted |
| Sorting.SortedUnique | ratchet/serialize.go:51-60 | a set has one increasing listing, so sorted output does not depend on the order a map is walked in |
| SpqrStates.SendKeyFollows | spqr/v1_chunked.go:96-148 | whatever the peer did, sending hands out a secret only for the epoch after the last one, and the message carries the state's epoch |
| SpqrStates.RecvKeyFollows | spqr/v1_chunked.go:150-604 | whatever arrives, receiving hands out secrets one epoch at a time and in order, and the epoch goes up by at most one |
| SpqrStates.IgnoresOthers | spqr/v1_chunked.go:150-604 | a message of an older epoch, or of a kind the state does not want, or without the chunk it needs, changes nothing; one of a later epoch is refused, but for the next epoch while the second ciphertext is being sent |
| SpqrStates.AckStops | spqr/v1_chunked.go:436-524 | once the first ciphertext is acknowledged no send of that epoch carries it, over any sequence of sends and received messages, whoever acknowledged it |
| SpqrAuthentic.HdrExactly | spqr/v1_unchunked.go:169-184 | for any state and any message that completes the header payload: the header is taken if and only if the rest is the HMAC of it under the tag key for this epoch, and the state then holds that header |
| SpqrAuthentic.Ct2Exactly | spqr/v1_unchunked.go:96-124 | likewise the second ciphertext is taken if and only if the rest is the HMAC of both ciphertexts under the key that the decapsulated secret gives; the secret handed out and the next authenticator are written out in the primitives |
| SpqrAuthentic.EkExactly | spqr/v1_unchunked.go:209-234 | a completed key is taken if and only if it matches the header, and what is sent next is the second ciphertext under its tag |
| SpqrAuthentic.SendsTaggedHeader | spqr/v1_unchunked.go:61-74 | the first send makes a key pair and sends its header under the tag of the authenticator |
| SpqrAuthentic.SendsSecret | spqr/v1_unchunked.go:186-207 | with any header, sending encapsulates to it and hands out the secret derived from what was encapsulated, and the authenticator takes it in |
| SpqrAuthentic.OnlyGenuine | spqr/v1_chunked.go:150-604 | whatever arrives in whatever state: the header, the key and the second ciphertext are taken only from a complete payload that carries its tag, or matches the header that did |
| SpqrAuthentic.NoForgedHeader | spqr/authenticator.go:59-83 | given anything by anyone under the tag of the honest peer, a party takes only the peer's header, or two inputs of the HMAC collide |
| SpqrAuthentic.NoForgedCiphertext | spqr/authenticator.go:67-93 | and only the peer's second ciphertext, with the peer's secret, or two inputs of the HMAC collide |
| SpqrProtocol.PartialAdd | spqr/v1_chunked.go:266-277 | any chunk of the right payload leaves a decoder pending or complete with that payload; decoding never fails |
| SpqrProtocol.EkSends | spqr/v1_chunked.go:96-148 | the party that sends the encapsulation key can always send, and the invariant holds after |
| SpqrProtocol.CtSends | spqr/v1_chunked.go:405-416 | the party that sends the ciphertexts can always send, and the invariant holds after; the secret it hands out is the encapsulated one |
| SpqrProtocol.EkReceives | spqr/v1_chunked.go:195-356 | it takes in anything the other ever sent without error, and the invariant holds after |
| SpqrProtocol.FinishesCt2 | spqr/v1_unchunked.go:96-124 | between honest parties: from the whole second ciphertext the tag verifies, and the epoch's secret and the updated authenticator are those of the sender (SpqrAuthentic.Ct2Exactly says what is refused) |
| SpqrProtocol.CtReceives | spqr/v1_chunked.go:360-604 | it takes in anything the other ever sent without error; either the roles stay or they change with the epoch |
| SpqrProtocol.ChangeRoles | spqr/v1_chunked.go:580-604 | a message of the next epoch makes the ciphertext sender the key sender of that epoch, with equal authenticators |
| SpqrProtocol.ReadsHeader | spqr/v1_chunked.go:378-401 | the header payload splits into the header and the tag it was made from |
| SpqrProtocol.MakesCt2 | spqr/v1_unchunked.go:225-234 | the second ciphertext is tagged with the updated authenticator, and the key matches its header |
| SpqrProtocol.EpochsAndRoles | spqr/v1_chunked.go:96-604 | in every run the epochs differ by at most one; when equal, exactly one party is on the key-sending side; when different, the leader waits for a header and the follower sends the second ciphertext |
| SpqrProtocol.StopsOnlyWhenHeld | spqr/v1_chunked.go:459-571 | in every run a party stops sending the first ciphertext, or the key, only once the peer holds all of it |
| SpqrProtocol.NeverErrs | spqr/v1_chunked.go:150-604 | in every run no message the peer ever sent, however late or repeated, makes receiving fail, and sending never fails |
| SpqrProtocol.SecretsAgree | spqr/v1_unchunked.go:96-234 | in every run both parties have the same secret for every epoch both have added, each has added exactly the epochs its state says, and with equally many their authenticators agree (SpqrSecrets.SecretsAreEncapsulated says what the secrets are) |
| SpqrProtocol.LawsAreConsistent | spqr/incremental_mlkem768.go:34-139 | the laws asked of the primitives can be met |
| SpqrSecrets.SecretsAreEncapsulated | spqr/v1_unchunked.go:61-234 | in every run each secret either party has is derived from the shared secret that one encapsulated to a key pair of the other, with randomness each drew; A makes the key pair in odd epochs, B in even ones |
| SpqrSecrets.SecretsDetermine | spqr/v1_unchunked.go:18-23 | equal secrets of one epoch in any two runs come from equal shared secrets, or two inputs of HKDF collide |
| SpqrSecrets.AuthMoves | spqr/authenticator.go:43-57 | at every step, whatever arrives, the authenticator changes exactly when a secret is handed out, and then to HKDF of its root key and that secret |
| SpqrSecrets.AuthFollowsSecrets | spqr/authenticator.go:24-57 | over any sequence of sends and received messages the authenticator is made from the authentication key and all secrets handed out, in order |
| SpqrSecrets.MacKeysDetermine | spqr/authenticator.go:43-57 | so equal tag keys mean equal authentication keys and equal secrets in every epoch, or two inputs of HKDF collide |
| SpqrProgress.FreshChunk | spqr/encoding_polynomial.go:234-299 | while a decoder is incomplete some chunk completes it or brings it nearer |
| SpqrProgress.SpinA | spqr/encoding_polynomial.go:171-175 | by sending on, the key sender reaches any chunk number, and nothing else changes |
| SpqrProgress.OneStepNearer | spqr/v1_chunked.go:181-571 | from every invariant state short of the end of the epoch some schedule lowers the measure |
| SpqrProgress.NextEpochReachable | spqr/v1_chunked.go:227-604 | after every run some continuation takes both parties to the epoch after the earlier of their two |
| SpqrProgress.EveryEpochReachable | spqr/v1_chunked.go:96-604 | every epoch is reached by both parties in some run |
| SpqrHistory.SkipMeaning | spqr/chain.go:135-143 | stepping up to any 32-bit index stores exactly the keys of the steps within MaxOOO of it to which adding MaxOOO does not wrap around |
| SpqrHistory.KeptIsBounded | spqr/chain.go:129-151 | after a move to any 32-bit index at most MaxOOO keys are stored |
| SpqrHistory.KeyAtRefines | spqr/chain.go:67-151 | one request for any 32-bit index gets the answer of the chain with 32-bit counters and unbounded memory, and the stored keys stay exactly those within reach and not yet returned |
| SpqrHistory.HistoryRefines | spqr/chain.go:97-151 | over any series of 32-bit requests the answers are those of that chain, and at most MaxOOO keys are stored |
| SpqrHistory.UnboundedExactly | spqr/chain.go:97-151 | the answers to a series are those of a chain with unbounded memory and counters if and only if no request is for an index behind the counter within MaxOOO of 2^32, or for a due key skipped before the counter moved on from there |
| SpqrHistory.AlikeWhileItFits | spqr/chain.go:124-143 | so they are while every requested index leaves room for MaxOOO below 2^32 |
| SpqrHistory.NearTheEnd | spqr/chain.go:67-81 | two requests at the end of the range for which the code refuses a key that is due |
| SpqrHistory.EachKeyOnce | spqr/chain.go:118-151 | over any series of 32-bit requests every key returned is the chain's key at that index, none is returned twice, and at most MaxOOO are stored |
| SpqrChain.AddShaped | spqr/chain.go:197-216 | the next epoch can always be added; the links held stay as they are and the new one is seeded from the old root |
| SpqrChain.SendShaped | spqr/chain.go:219-245 | a key for sending is to be had in exactly the epochs from the one being sent in to the latest; one epoch before it is kept, to receive in, and nothing older |
| SpqrChain.RecvShaped | spqr/chain.go:248-261 | receiving touches only the receiving direction of its epoch |
| SpqrChain.AddsOnlyNext | spqr/chain.go:197-216 | an epoch can be added only right after the latest, and its secret goes into the root |
| SpqrChain.RefusesOtherEpochs | spqr/chain.go:219-272 | outside the epochs held each request has its own error and changes nothing |
| SpqrChain.SeedsMirror | spqr/chain.go:274-283 | each direction is seeded from its own block, and what one party sends with the other receives with |
| SpqrChainCode.ChainEpochDirection.NextKey | spqr/chain.go:97-116 | one step of the chain in place, or the error of a closed direction with no change |
| SpqrChainCode.ChainEpochDirection.Collect | spqr/chain.go:56-65 | the deletion loop leaves exactly the keys within reach |
| SpqrChainCode.ChainEpochDirection.Get | spqr/chain.go:67-81 | a stored key is returned and removed, with the two errors told apart |
| SpqrChainCode.ChainEpochDirection.Skip | spqr/chain.go:135-143 | the loop steps up to just before an index, storing what stays within reach |
| SpqrChainCode.ChainEpochDirection.Key | spqr/chain.go:118-151 | the method refines the function that the history theorems are about, failures included |
| SpqrChainCode.EpochChain.constructor | spqr/chain.go:175-194 | a new chain as the function of values describes it |
| SpqrChainCode.EpochChain.From | spqr/chain.go:386-393 | a chain object made from restored parts |
| SpqrChainCode.EpochChain.AddEpoch | spqr/chain.go:197-216 | adding the next epoch, or the error with no change |
| SpqrChainCode.EpochChain.RetireBefore | spqr/chain.go:230-239 | the two loops drop all links but one before the epoch and close that one for sending |
| SpqrChainCode.EpochChain.SendKey | spqr/chain.go:219-245 | the method refines the function, failures included |
| SpqrChainCode.EpochChain.RecvKey | spqr/chain.go:248-272 | the method refines the function, failures included |
| SpqrState.SendStaysRegular | spqr/state.go:55-104 | whatever the peer did, Send fails only where the handshake does: the chain's epochs are never in the way |
| SpqrState.ReceiveStaysRegular | spqr/state.go:107-174 | whatever arrives, a state that is kept is in step with its chain again |
| SpqrState.ReceiveRefuses | spqr/state.go:138-165 | a message of the current or previous epoch that the handshake takes is refused only because its own key cannot be had |
| SpqrState.AlwaysInStep | spqr/state.go:68-169 | after any calls with any messages the chain's epoch is the state's or the one before, as the handshake state fixes it; at most three links are held; both recent epochs have theirs |
| SpqrVersion.GivenUpExactly | spqr/state.go:115-134 | a state is given up if and only if it may be, the peer has not been heard, and the message is of no version or of version 0 |
| SpqrVersion.NoDowngradeOnceHeard | spqr/state.go:122-169 | once a message of the peer was accepted no later message makes the state give up its version, over any calls |
| SpqrVersion.OtherFields | spqr/state.go:107-137 | what a state does with fields of no version, another version or no meaning, and what a state without its handshake does |
| SpqrVersion.SendsOnlyWith | spqr/state.go:55-66 | without a handshake nothing is sent and no salt used; with one, sending is that of the handshake and chain |
| SpqrLedger.RecvKeeps | spqr/chain.go:248-261 | a key for receiving is to be had exactly when the key service of its epoch gives it after the indices received there, with the same error otherwise |
| SpqrLedger.EachSaltOnce | spqr/state.go:138-174 | over any calls with any messages from a new state no two successful receives that return a salt have the same epoch and index |
| SpqrLedger.NextReceipt | spqr/state.go:138-174 | after any calls a message the handshake takes is accepted exactly when its epoch is held and the key service gives its index after those received so far, with that service's error otherwise; index 0 of the first epoch stands for no salt |
| SpqrLedger.SendsCountUp | spqr/state.go:68-96 | after any calls a message goes out without a salt exactly while the version may be given up and the peer was not heard; otherwise its index is one more than the salts sent in its epoch before, in 32 bits |
| SpqrLedger.SendingIsClosed | spqr/chain.go:230-239 | after any calls no key can be drawn any more for sending in an epoch before the one being sent in |
| SpqrStateCode.PqrState.Send | spqr/state.go:55-104 | the object does what the value does; a failure leaves exactly what is stated, which may be a chain that has moved on |
| SpqrStateCode.PqrState.Receive | spqr/state.go:107-174 | likewise, for messages of every version |
| SpqrStateCode.PqrState.ReceivePart | spqr/state.go:138-174 | likewise for a version 1 message: handshake and negotiation change only on success, the chain may have moved on a failure |
| SpqrStateCode.FailureLeaves | spqr/state.go:55-174 | what a failing call leaves: the handshake and the negotiation as they were, and a chain if there was one |
| SpqrStateCode.PqrState.Disable | spqr/state.go:416-421 | nothing is held any more |
| SpqrStateCode.PqrState.Clone | spqr/state.go:337-368 | a new object, with a new chain, holding what saving and restoring gives; nothing if a part cannot be restored |
| SpqrSystem.RootedSends | spqr/state.go:55-104 | after Send the chain's root is the one that the authentication key and the secrets so far make, whatever the counters |
| SpqrSystem.RootedReceives | spqr/state.go:107-174 | and after Receive of anything |
| SpqrSystem.RootsAgree | spqr/chain.go:204-208 | in every run chains at the same epoch have the same root |
| SpqrSystem.AddRight | spqr/chain.go:197-216 | with the same secrets added, root and seeds are functions of the authentication key and those secrets |
| SpqrSystem.SendKeyRight | spqr/chain.go:219-245 | the key returned for sending is the chain's key at the index returned with it, unless the index wrapped around to zero |
| SpqrSystem.RecvKeyRight | spqr/chain.go:248-261 | the key returned for receiving is the chain's key at the index asked for, for every 32-bit index |
| SpqrSystem.PartySends | spqr/state.go:55-104 | one party's Send records the salt its epoch and index stand for, unless the counter wrapped around; without a chain, none and index zero |
| SpqrSystem.PartyReceives | spqr/state.go:107-174 | one party's Receive returns the salt the epoch and index stand for; none for an index-zero message of the first epoch |
| SpqrSystem.WrappedIsLost | spqr/chain.go:97-116 | a message whose counter wrapped around never gets its salt from any state of the other party |
| SpqrSystem.SaltsAgree | spqr/state.go:55-174 | in every run of any length in which no counter wrapped around, for both parties and whatever each requires of the version: every successful Receive of a message returns the salt Send returned with it, the missing salt of messages before there was a chain included |
| SpqrWire.VarintRoundTrip | spqr/message.go:137-167 | every 64-bit number reads back, ten-byte ones included, whatever follows |
| SpqrWire.EncodeVarint | spqr/message.go:137-147 | the loop appends the encoding and returns within its ten rounds |
| SpqrWire.ConsumeVarint | spqr/message.go:149-167 | the loop reads what the function of the remaining bytes reads, errors included |
| SpqrWire.MessageRoundTrip | spqr/message.go:46-97 | every 64-bit epoch, 32-bit index and payload with a chunk exactly where its kind has one reads back, and exactly its bytes are consumed |
| SpqrWire.SentReadsBack | spqr/message.go:46-97 | whatever the handshake sends is of that form |
| SpqrWireSpelling.VarintExactly | spqr/message.go:149-167 | a number is read exactly from its spellings: up to ten bytes, all but the last with the top bit set, seven bits each, in 64 bits |
| SpqrWireSpelling.ReadsExactly | spqr/message.go:62-97 | bytes are read as a message and an index exactly when they begin with a spelling of them: version, epoch, index, kind, and a chunk where the kind has one |
| Codec.GetsWord | spqr/util.go:11-49 | 16, 32 and 64-bit numbers read back |
| Codec.GetsBytes | spqr/util.go:51-68 | a length-prefixed string reads back, and the rest is left |
| Codec.GetsEntries | spqr/chain.go:323-327 | a map written entry by entry in any order of its keys reads back, whatever one entry looks like |
| Spelling.BytesRead | spqr/util.go:51-68 | whatever is read as a length-prefixed string was written as one |
| Spelling.EntriesRead | spqr/chain.go:396-430 | whatever is read as a map was written as a list of entries, of which the last of each key counts |
| SpqrCodec.GetsEncoder | spqr/encoding_polynomial.go:177-204 | an encoder is restored with its message and counter |
| SpqrCodec.GetsDecoder | spqr/encoding_polynomial.go:301-364 | a decoder is restored with all its points |
| SpqrCodec.SaveRestore | spqr/v1_state_serialize.go:17-366 | restoring what was saved gives the state back, in all eleven variants |
| SpqrCodec.RestoreValid | spqr/v1_state_serialize.go:90-366 | whatever bytes are restored, the state is well-formed and its epoch a 64-bit number |
| SpqrSpelling.RestoresExactly | spqr/v1_state_serialize.go:90-366 | bytes restore a handshake state if and only if they spell it: its tag, every part at its size and place, nothing after them |
| SpqrCodec.DecodedSize | spqr/encoding_polynomial.go:268-299 | a decoded payload has the length its decoder was made for, whoever sent the chunks |
| SpqrCodec.StorableSend | spqr/v1_chunked.go:96-148 | a state that can be saved can be saved after sending |
| SpqrCodec.StorableRecv | spqr/v1_chunked.go:150-604 | and after receiving anything at all |
| SpqrChainCodec.GetsDir | spqr/chain.go:313-430 | one direction is restored with its stored keys |
| SpqrChainCodec.ChainRoundTrip | spqr/chain.go:293-394 | restoring a saved chain gives it back |
| SpqrChainCodec.CloneIsSame | spqr/state.go:337-368 | after any calls with any messages, cloning gives the very same state if and only if the epoch is a 64-bit number |
| SpqrStateCodec.SerializeRestores | spqr/state.go:177-334 | saving and restoring gives the state back, with and without a negotiation and a chain |
| SpqrStateCodec.RestoredPersistable | spqr/state.go:220-334 | whatever bytes a state was restored from, its epoch is a 64-bit number, its authentication key is there while it negotiates, and its chain takes less than 2^32 bytes |
| SpqrStateCodec.ReachedSize | spqr/chain.go:293-329 | after any calls with any messages the saved chain takes at most 326 + 108 MaxOOO bytes |
| SpqrStateCodec.SavesExactly | spqr/state.go:177-334 | after any calls with any messages, saving and restoring gives the very same state if and only if the epoch is a 64-bit number, the authentication key while negotiating is not empty, and it and the chain take less than 2^32 bytes |
| SpqrStateCodec.AlwaysSaves | spqr/state.go:31-34 | with an authentication key, which making a state demands, and MaxOOO up to 39 million that is whenever the epoch is a 64-bit number |
| SpqrStateSpelling.ChainRead | spqr/chain.go:331-394 | bytes from which a chain is restored spell that chain |
| SpqrStateSpelling.ChainRestores | spqr/chain.go:331-394 | and every spelling of a chain restores it |
| SpqrStateSpelling.RestoresExactly | spqr/state.go:220-334 | bytes restore a state, a chain alone in the old form, or nothing if and only if they spell it |
| RatchetReplay.SkipLimit | ratchet/skipped.go:15-36 | skipping succeeds exactly when the keys it would leave stored are at most MaxSkip, and fails with that error otherwise |
| RatchetReplay.AcceptsInChain | ratchet/wire.go:57-91 | a header of the current remote key whose key is not stored is accepted exactly when it lies ahead, what is skipped fits the limit and the chain has a key there |
| RatchetReplay.AcceptsTurning | ratchet/wire.go:61-91 | a header of another remote key is accepted exactly when that key was never seen, both skips fit the limit, the key agreement takes it and the new chain has a key there |
| RatchetReplay.AdvanceSound | ratchet/wire.go:41-91 | an accepted header had not been accepted before and cannot be again; skipped keys stay keyed by the current remote key below the counter, and the seen keys only grow |
| RatchetReplay.NoReplay | ratchet/wire.go:41-91 | over any calls with any headers, sends among them, two accepted headers never have the same remote key and number |
| RatchetReplay.StaysSound | ratchet/dh_ratchet.go:27-71 | over any calls the current remote key is among those seen, skipped keys belong to it, and there are at most MaxSkip |
| RatchetReplay.StartsSound | ratchet/state.go:51-154 | both ways of starting give such a state |
| RatchetHistory.StoredExactly | ratchet/skipped.go:15-52 | over any calls with any headers the keys stored are exactly those of the current remote key below its counter whose header was not accepted |
| RatchetHistory.AcceptsCurrent | ratchet/wire.go:50-91 | after any calls a header of the current remote key behind the counter is accepted exactly when it was not accepted before; one ahead exactly when what is skipped fits and the chain has a key there |
| RatchetHistory.DuplicateExactly | ratchet/wire.go:41-60 | after any calls a header is called a duplicate exactly when it was accepted before or its remote key was left behind |
| RatchetHistory.SeenAll | ratchet/dh_ratchet.go:27-71 | the remote keys seen are those at the start and those of accepted headers, and no others |
| RatchetHistory.SendsInOrder | ratchet/wire.go:12-38 | after any calls the next message carries the number of those sent since the ratchet turned and of those before that, and has the next key of that turn's chain; it can be sent exactly while there is a key and a number |
| RatchetHistory.StartsStarting | ratchet/state.go:51-154 | both ways of starting give a state these begin from |
| RatchetAgreement.InChain | ratchet/wire.go:50-91 | a header of the chain being received gives the message key its number stands for, stored or new |
| RatchetAgreement.Turns | ratchet/dh_ratchet.go:23-73 | a header of the peer's next key gives its message key, and both new chains come out as the peer will derive them |
| RatchetAgreement.StartInv | ratchet/state.go:51-154 | matching key agreements start both parties consistently, with an initial chain key and without |
| RatchetAgreement.KeysAgree | ratchet/wire.go:12-91 | in every run from matching key agreements, under any loss, reordering and duplication, every header a party accepts yields the message key the sender derived for it |
| RatchetAgreement.LengthsAnnounced | ratchet/wire.go:26-30 | in every run each header announces exactly how many messages its sender sent under the key before |
| RatchetCode.RatchetState.Initialize | ratchet/state.go:51-154 | both branches, field by field, with the errors for missing inputs |
| RatchetCode.RatchetState.Clone | ratchet/state.go:157-178 | a new object with the same value |
| RatchetCode.RatchetState.NextSendingMessageKey | ratchet/wire.go:12-38 | the next header and key with the state moved on, or an error with no change |
| RatchetCode.RatchetState.SkipMessageKeys | ratchet/skipped.go:15-36 | the loop refines the function the theorems are about; a failure leaves exactly the keys stepped over so far |
| RatchetCode.SkipStops | ratchet/skipped.go:15-36 | a skip that fails part-way leaves what a skip to where it stopped gives |
| RatchetCode.FailedAdvance | ratchet/wire.go:41-91 | a failing advance forgets no remote key, learns none but the header's and the one it leaves, and a duplicate changes nothing |
| RatchetCode.RatchetState.CleanupSkippedKeys | ratchet/skipped.go:46-52 | the deletion loop leaves exactly the keys of the current remote key |
| RatchetCode.RatchetState.DhRatchet | ratchet/dh_ratchet.go:23-73 | the in-place ratchet refines the function; a refused key leaves exactly the steps before it done |
| RatchetCode.RatchetState.AdvanceForHeader | ratchet/wire.go:41-91 | same key and same state as the function, or the same error and exactly the state that the failing step leaves |
| RatchetCode.RatchetState.Encrypt | ratchet/message.go:19-60 | the message is sealed under the next sending key and carries its header |
| RatchetCode.RatchetState.Decrypt | ratchet/message.go:63-125 | decrypting is advancing a clone for the header and committing it if the message opens: same acceptance, same key, same state; on any error the state is unchanged, stored keys included |
| RatchetCodec.SaveRestore | ratchet/serialize.go:16-196 | restoring what was saved gives the state back |
| RatchetCodec.ReachedRoundTrips | ratchet/serialize.go:16-196 | every state reached by any calls round-trips, because the skip limit keeps it under the reader's limit |
| RatchetCodec.StartsSized | ratchet/state.go:51-154 | both ways of starting give a state with parts of the sizes that saving needs |
| RatchetCodec.StartedRoundTrips | ratchet/serialize.go:16-196 | so from the key agreement on, on either side and over any calls, the state saves and restores |
| RatchetSpelling.RestoresExactly | ratchet/serialize.go:90-196 | bytes restore a state if and only if they spell it: version, flags, keys and counters at their sizes, at most MaxSkip entries that add up to the skipped keys, the keys seen, nothing after them |
| SenderKeys.TakeRight | senderkeys/cipher.go:140-179 | a key handed out is the chain's at that iteration, was not handed out before and cannot be again; the list stays strictly increasing, below the chain's iteration and at most 2000 |
| SenderKeys.AnsweredExactly | senderkeys/cipher.go:147-157 | a request is answered exactly when its key is stored or lies at most 2000 ahead; a duplicate and an excessive skip are told apart exactly |
| SenderKeys.EachKeyOnce | senderkeys/cipher.go:140-179 | over any series of messages since a state was installed, every answer is the chain's key of its iteration, and no iteration is answered twice |
| SenderKeys.TrimsOldest | senderkeys/record.go:115-125 | the list is the newest part of what was stepped over and not handed out; a key is dropped only when 2000 newer ones are stored, so nothing is while there is room |
| SenderKeys.HoldsNewest | senderkeys/record.go:115-139 | over any series of messages the list is the newest part of what is pending, and a pending key that is missing had 2000 newer stored keys at some point |
| SenderKeys.HoldsAll | senderkeys/record.go:115-139 | over any series with never more than 2000 keys pending the list is everything pending |
| SenderKeysCode.SenderKeyState.AddMessageKey | senderkeys/record.go:115-125 | append and trim |
| SenderKeysCode.SenderKeyState.RemoveMessageKey | senderkeys/record.go:127-139 | the search removes the first key of the iteration and returns it, or changes nothing |
| SenderKeysCode.SenderKeyState.GetSenderMessageKey | senderkeys/cipher.go:140-179 | the loop refines the function the theorems are about; at the last iteration the keys stepped over stay listed and the chain stays, on other errors nothing changes |
| SenderKeysCode.Record.constructor | senderkeys/record.go:21-29 | an empty record, five states unless told otherwise |
| SenderKeysCode.Record.Lookup | senderkeys/record.go:42-55 | the first state of an id, or none when there is none |
| SenderKeysCode.Record.SetState | senderkeys/record.go:57-85 | a state is installed in front, replacing the one with its id; the others keep their order and only the last may go |
| SenderKeysCode.OthersApart | senderkeys/record.go:65-74 | the filter keeps exactly the states of other ids |
| SessionRecord.OnCopyIsDecrypt | session/wire_cipher.go:267-314 | for a session whose state clones exactly, decrypting on clones is the decrypting that the agreement theorem is about |
| SessionRecord.OnCopyIsEncrypt | session/wire_cipher.go:145-197 | and likewise encrypting |
| SessionRecord.ReachedCopies | session/session.go:102-126 | that is so after any calls with any messages if and only if the epoch is a 64-bit number |
| SessionRecord.ChosenDecides | session/wire_cipher.go:199-237 | where clones are exact, the first session in the order of the record that opens the message or calls it a duplicate decides: its plaintext is returned and it goes in front in its new value, the others keeping their order, or the duplicate is reported and nothing changes |
| SessionRecord.NoneDecides | session/wire_cipher.go:230-237 | if none does, the current session's failure is reported and nothing changes |
| SessionRecord.DecryptsExactly | session/wire_cipher.go:199-237 | so a message is opened exactly when some session opens it and none before calls it a duplicate, and called a duplicate exactly when some session does and none before opens it |
| SessionRecord.NothingLost | session/wire_cipher.go:199-237 | decrypting fails and leaves every session as it was, or that first session takes its new value and comes to the front, and no other is changed or lost |
| SessionRecord.PromotedInOrder | session/record.go:56-84 | promoting a new session gives it, then the former ones in their order as far as there is room |
| SessionRecord.FailedEncrypt | session/wire_cipher.go:145-197 | encrypting that fails leaves the post-quantum state alone, and the ratchet as it was or moved by one |
| SessionCode.Session.Clone | session/session.go:102-126 | a new session with a new ratchet; a post-quantum state that cannot be cloned is dropped |
| SessionCode.Session.EncryptSignal | session/wire_cipher.go:145-197 | the message and the session are those of encrypting on values; when the post-quantum part fails the ratchet stays moved |
| SessionCode.Session.DecryptWithSession | session/wire_cipher.go:239-316 | on success the session is exactly the one of decrypting on clones, which is SessionAgreement.Decrypt's where the state clones exactly; on any failure neither the session nor what it holds has changed, although the clones may be half-way |
| SessionCode.Record.constructor | session/record.go:24-36 | a record holding a clone of the first session, five archived unless told otherwise |
| SessionCode.Record.Promote | session/record.go:56-84 | promoting an archived session moves it to the front and loses nothing; promoting a new one drops at most the oldest; what is moved is cloned |
| SessionCode.Record.TrySession | session/wire_cipher.go:212-229 | trying one session changes that one if it opens the message, and no session otherwise |
| SessionCode.Record.TryAndPromote | session/wire_cipher.go:224-229 | an archived session that opens the message takes its new value and is promoted; otherwise nothing changes |
| SessionCode.Record.TryArchived | session/wire_cipher.go:220-235 | the loop stops at the first archived session that opens the message, and promotes it, or that calls it a duplicate |
| SessionCode.Record.Decrypt | session/wire_cipher.go:199-237 | the current session is tried, then the archived ones in order, until one opens the message or calls it a duplicate; the record ends as stated on values |
| SessionAgreement.MovesAreCalls | session/wire_cipher.go:145-316 | in every reachable state a step of a run leaves a party with exactly the session its encrypting or decrypting returned, and the other as it was |
| SessionAgreement.OpensToPlain | session/wire_cipher.go:239-316 | with the sender's message key and salt a message verifies and opens to what was sent |
| SessionAgreement.ReadIsTagged | session/wire_cipher.go:267-314 | whoever made it, a message is read if and only if both ratchets take it, it carries the tag of its own header, post-quantum field and body under the key and salt they give, and its body opens |
| SessionAgreement.NoForgedMessage | session/wire_cipher.go:267-314 | a message read under the tag of one that was sent is that message, or two inputs of the tag collide |
| SessionAgreement.ReadsWhatWasSent | session/wire_cipher.go:145-316 | in every run of any length of two sessions with both ratchets in which no 32-bit counter wrapped around, a message that was sent is read exactly when neither ratchet refuses it, and then reads as the plaintext it was sent with |

## Left out

- ML-KEM, HKDF, HMAC, X25519 and AES are parameters; their failures other than a refused public key are not modelled, and domain-separation labels are distinct values rather than bytes.
- The handshake states are modelled on values: that encoders, decoders and authenticators are shared by reference between successive states is not captured.
- Epochs are unbounded numbers; the wrap of a 64-bit epoch is not modelled.
- SpqrSystem.SaltsAgree: says nothing of a run in which more than 2^32 - 1 messages went out in one epoch and direction, beyond what SpqrSystem.WrappedIsLost says of the first of them.
- SessionAgreement.ReadsWhatWasSent: likewise, and for two sessions that both have a post-quantum state; session versions and identity keys are left out.
- RatchetCodec.ReachedRoundTrips: stated while fewer than 2^32 remote keys have been seen; the public half of a key pair is taken from the private one when restoring.
- SpqrWire.ConsumeVarint: or-ing bits in above those present is written as adding them.
- The codecs read from the remaining bytes instead of advancing a position. The post-quantum field of a session's message is taken as read. A chain restored without a handshake is read but not used further.
- SessionCode.Session.DecryptWithSession: the identity keys and the session version, which is set on the first message, are left out; so are the archived ratchet states of one session.
- `RatchetOnSend`, header encryption, and the X3DH computation itself (its two results are assumed to match).
- The sending side of sender keys, their signatures, re-installing a state, and the record codecs around the state codecs.
- The pre-key message path, stores and persistence, sealed sender, Sesame, fan-out and the wire protobuf formats.
- Key zeroing, constant-time comparison and the quality of randomness.
