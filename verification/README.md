# Verified model of libsignal-go's ratchets and their arithmetic

A Dafny model of the parts of libsignal-go that carry its guarantees, with proofs over all
inputs, all runs and all reachable states:

- **SPQR, the sparse post-quantum ratchet.** Two machines of eleven states exchange a KEM
  key and ciphertext in numbered chunks over a network that drops, duplicates and reorders
  (`V1Machine`, `V1Joint`, `V1Safety`, `V1Liveness`, `V1Codec`); the epoch key chain hands
  out per-message keys (`KeyChain`, `KeyStream`, `KeyChainObjects`); `Send` and `Recv`
  couple the two and negotiate versions (`WireMessage`, `Ratchet`, `RatchetRuns`,
  `Agreement`, `AgreementRuns`).
- **The erasure code under it.** GF(2^16), Lagrange interpolation, and the encoder and
  decoder with their stored forms (`Gf2`, `Gf16`, `Lagrange`, `Chunked`, `Streams`,
  `Transport`, `TransportCodec`).
- **Incremental ML-KEM-768.** Barrett arithmetic, the number-theoretic transform, the byte
  codecs, K-PKE, the KEM and its two-phase form (`Zq`, `Rq`, `NttTables`, `Ntt`,
  `NttInPlace`, `BitPacking`, `RingCodec`, `RingLoops`, `Kpke`, `Mlkem`, `EncapsState`,
  `Incremental`, `MlkemLoops`); `KemInstance` shows that it has the sizes the SPQR theorems
  ask for and which of its draws are the good ones they speak of.
- **The Double Ratchet session and the group sender keys** (`KeyWindow`, `KeyCache`,
  `Session`, `SessionRuns`, `SessionObjects`, `SenderKeys`), and sessions whose
  post-quantum ratchet is SPQR itself (`TripleRatchet`).
- **POLYVAL**, the universal hash of AES-GCM-SIV (`Polyval`).

Code that updates fields or buffers in place is modelled by classes and by methods with
loops; each such method is proved equal to a function on values, and the properties are
proved about that function.

## How the outside world enters

- Hash, HKDF, HMAC and the KEM of SPQR are an arbitrary record of functions
  (`Primitives.Crypto`); theorems assume only output lengths (`Sized`) and, per draw, that
  the drawn key validates and the drawn message decapsulates (`GoodDraw`). `KemInstance`
  derives the latter for ML-KEM from a bound on the noise of that draw.
- In the session model key derivation, agreement and sealing are free constructors:
  agreement commutes, and a body opens only under the keys and with the header it was sealed
  with. The network may deliver anything that is not newly sealed under keys of the session.
- Random draws are parameters. Machine words under GF(2) arithmetic are bit sequences;
  16- and 32-bit wrap-around is written out where the source computes with it. Epochs are
  unbounded. Counters of 32 bits wrap explicitly; theorems about whole runs name the room
  they need (`NoWrap`, `Room`, the index bound in `Sends`).

## Model

| member | source | states |
|---|---|---|
| Gf16.PolyMul | internal/spqr/chunked/gf.go:67-76 | the shift-and-add loop yields the full carry-less product |
| Gf16.GfReduce | internal/spqr/chunked/gf.go:84-91 | bit-by-bit reduction yields the residue modulo 0x1100b |
| Gf16.GfMul | internal/spqr/chunked/gf.go:60-62 | the product is multiplication in GF(2)[x] modulo 0x1100b |
| Gf16.GfDiv | internal/spqr/chunked/gf.go:97-106 | for a nonzero divisor the quotient times the divisor is the dividend; division by zero gives zero |
| Gf16.AddLaws | internal/spqr/chunked/gf.go:45-49 | XOR is an abelian group in which every element is its own inverse |
| Gf16.TimesComm | internal/spqr/chunked/gf.go:60-62 | multiplication commutes |
| Gf16.TimesAssoc | internal/spqr/chunked/gf.go:60-62 | multiplication associates |
| Gf16.TimesAdd | internal/spqr/chunked/gf.go:60-62 | multiplication distributes over XOR on both sides |
| Gf16.FrobeniusIsIdentity | internal/spqr/chunked/gf.go:97-106 | a^(2^16) = a for every element |
| Gf16.InverseLaw | internal/spqr/chunked/gf.go:97-106 | every nonzero element times its 2^16 - 2 power is one |
| Gf16.NoZeroDivisors | internal/spqr/chunked/gf.go:60-106 | a product is zero only if a factor is |
| Lagrange.EvalAt | internal/spqr/chunked/polynomial.go:63-69 | Horner's rule evaluates the polynomial |
| Lagrange.PolyMulLinear | internal/spqr/chunked/polynomial.go:108-117 | the loop multiplies by x minus the root |
| Lagrange.PolyAddScaled | internal/spqr/chunked/polynomial.go:120-130 | the loop adds a scaled polynomial |
| Lagrange.LagrangeInterpolate | internal/spqr/chunked/polynomial.go:83-104 | the accumulated polynomial is the interpolant |
| Lagrange.LagrangeThrough | internal/spqr/chunked/polynomial.go:83-104 | the interpolant passes through each of its points |
| Lagrange.InterpolationUnique | internal/spqr/chunked/polynomial.go:83-104 | two polynomials of degree below n that agree on n points agree everywhere |
| Lagrange.Reinterpolation | internal/spqr/chunked/polynomial.go:83-104 | interpolating any enough points of a curve gives the curve back |
| Chunked.PointOnCurve | internal/spqr/chunked/polynomial.go:169-186 | literal values and polynomial evaluation agree wherever both are defined |
| Chunked.AddKeeps | internal/spqr/chunked/polynomial.go:252-263 | a chunk of the message keeps every point on the message's curves and adds its index |
| Chunked.DecodedIs | internal/spqr/chunked/polynomial.go:268-295 | a decoder answers with the message exactly when it has seen enough distinct indices |
| Chunked.AnySufficientChunksDecode | internal/spqr/chunked/polynomial.go:228-304 | any sequence of chunks, with repeats and in any order, decodes to the message if and only if it holds ceil((len/2)/16) distinct indices |
| Streams.PointAtIs | internal/spqr/chunked/polynomial.go:169-186 | in either form a stream for a message serves the message's point, and switches exactly for an index past the values of that polynomial |
| Streams.NextIs | internal/spqr/chunked/polynomial.go:189-207 | a stream for a message sends the message's chunk and goes on encoding it, and leaves the raw values exactly with the first index past the message's whole chunks |
| Streams.NextLasts | internal/spqr/chunked/polynomial.go:169-207 | sending never empties a polynomial |
| Streams.LastsIffWholeChunk | internal/spqr/chunked/polynomial.go:150-186 | every polynomial is occupied if and only if the message has at least 32 bytes |
| Transport.Encoder.Switch | internal/spqr/chunked/polynomial.go:169-186 | interpolates every polynomial as the value model does |
| Transport.Encoder.PointAt | internal/spqr/chunked/polynomial.go:169-186 | the point served and the switch it may cause are those of the value model |
| Transport.Encoder.ChunkAt | internal/spqr/chunked/polynomial.go:189-198 | sixteen big-endian points in turn, as the value model gives them |
| Transport.Encoder.NextChunk | internal/spqr/chunked/polynomial.go:201-207 | the next chunk and the new state of the value model, with the index wrapping at 2^16 |
| Transport.NewEncoder | internal/spqr/chunked/polynomial.go:150-166 | odd lengths are refused; otherwise the encoder starts as the stream of the message |
| Transport.NewDecoder | internal/spqr/chunked/polynomial.go:218-225 | odd lengths are refused; otherwise nothing has been received |
| Transport.Decoder.PushPoint | internal/spqr/chunked/polynomial.go:239-248 | a point is kept unless its x is present |
| Transport.Decoder.AddChunk | internal/spqr/chunked/polynomial.go:252-263 | the object follows the value model of adding a chunk |
| Transport.Decoder.DecodedMessage | internal/spqr/chunked/polynomial.go:268-295 | lazy interpolation yields what the value model decodes |
| TransportCodec.SerializeGf16s | internal/spqr/chunked/codec.go:142-149 | values become big-endian byte pairs |
| TransportCodec.DeserializeGf16s | internal/spqr/chunked/codec.go:152-161 | odd lengths are refused; otherwise the values come back |
| TransportCodec.EncoderFromProto | internal/spqr/chunked/codec.go:61-90 | accepts exactly the stored encoders the value model of the reader accepts, with the same result |
| TransportCodec.ReadBack | internal/spqr/chunked/codec.go:41-90 | every stream reads back with its live rows, except exactly a switched one with an empty polynomial, which is refused |
| TransportCodec.ReloadEncoder | internal/spqr/chunked/codec.go:41-90 | a stored encoder reloads to one for the same message and index, and is refused exactly if it has switched with a message shorter than 32 bytes |
| TransportCodec.ReloadAfterFirstChunk | internal/spqr/chunked/codec.go:41-90 | an encoder made for any message, stored after its first chunk, is refused on reload if and only if the message is shorter than 32 bytes |
| TransportCodec.ReloadDecoder | internal/spqr/chunked/codec.go:94-138 | a stored decoder reloads to the same points |
| V1Safety.SendEkKeeps | spqr/v1.go:167-224 | with a drawn key that validates, every send of the side that owns the key pair succeeds, carries only what belongs to the epoch's exchange and never ct2, yields no secret, and keeps that side's view of the exchange |
| V1Safety.RecvCt2Keeps | spqr/v1.go:262-293 | every ct2 chunk of the exchange is accepted, and the one that completes ct2 yields exactly the epoch's secret and opens the next epoch waiting for a header |
| RatchetRuns.MachineSends | spqr/v1.go:473-520 | with primitives of the sizes the code fixes, a send from any well-formed state succeeds, stays in its epoch, and yields that epoch's secret exactly when a header has just been received |
| RatchetRuns.MachineReceives | spqr/v1.go:525-661 | an accepted message yields a secret only to a side that sent a header and not a ciphertext, and then opens the next epoch; otherwise the epoch moves only for a side that sampled its ciphertext |
| V1Safety.SendKeepsInv | spqr/v1.go:473-520 | a send by either party keeps the joint invariant |
| V1Safety.DeliverKeepsInv | spqr/v1.go:525-661 | delivering any message ever sent succeeds and keeps the joint invariant |
| V1Safety.RunsStayInStep | spqr/v1.go:473-661 | at every point of every run epochs differ by at most one, equal epochs have opposite roles, a leader waits for a header while its follower sends ct2, no message ever sent is refused, and no good draw fails to send |
| V1Safety.SecretsAgree | spqr/v1.go:262-346 | all secrets produced for an epoch, by either party, are equal |
| V1Liveness.FilledIsEnough | internal/spqr/chunked/polynomial.go:252-295 | as many consecutive chunks as the longest polynomial has values complete a decoder, whatever it held before |
| V1Liveness.NextRound | spqr/v1.go:373-455 | from every reachable pair one send delivered at once lowers the rank, adds a chunk, or ends the epoch |
| V1Liveness.NeverStuck | spqr/v1.go:373-661 | from every point of every run some schedule takes both machines to any epoch not yet passed |
| V1Codec.Reload | spqr/v1_codec.go:44-283 | a stored state reads back, up to what no later step uses, except exactly when its encoder has switched with an empty polynomial, and then the reader refuses it |
| V1Codec.SendStorable | spqr/v1.go:473-520 | sending keeps a readable state readable, whatever is drawn |
| V1Codec.RecvStorable | spqr/v1.go:525-661 | receiving keeps a readable state readable, whatever arrives |
| V1Codec.SimilarSends | spqr/v1_codec.go:44-283 | states of which the stored form keeps the same send the same messages, keys and errors and stay alike |
| V1Codec.SimilarReceives | spqr/v1_codec.go:44-283 | states of which the stored form keeps the same receive with the same keys and errors and stay alike |
| V1Codec.ReloadingIsInvisible | spqr/v1_codec.go:44-283 | from either initial state, for any draws and any messages, a machine stored and read back around every step is never refused by the reader and has exactly the outputs of one kept in memory |
| KeyStream.KeyRefines | spqr/chain.go:177-203 | one key request is one request of the one-shot stream |
| KeyStream.StreamRefinesOneShot | spqr/chain.go:76-203 | over any requests index i below the counter is served iff it is in the out-of-order window and unserved, with the i-th sequential key, and the history stays within its size bound |
| KeyStream.EachKeyAtMostOnce | spqr/chain.go:76-203 | over any requests to the packed history no index is served twice |
| KeyStream.GcKeeps | spqr/chain.go:101-119 | swap-remove collection drops only what the window no longer serves |
| KeyChainObjects.KeyHistory.Append | spqr/chain.go:76-80 | the packed 36-byte record is appended |
| KeyChainObjects.KeyHistory.Remove | spqr/chain.go:91-97 | the last record replaces the removed one |
| KeyChainObjects.KeyHistory.Collect | spqr/chain.go:101-119 | the packed buffer follows the value model of collection |
| KeyChainObjects.KeyHistory.Pop | spqr/chain.go:123-137 | a found key is removed and returned, a missing one is an error by its place relative to the window |
| KeyChainObjects.GreaterIsNumeric | spqr/chain.go:101-119 | comparing big-endian bytes is comparing the numbers |
| KeyChainObjects.ChainDirection.Advance | spqr/chain.go:154-173 | one step of the direction yields counter and key |
| KeyChainObjects.ChainDirection.KeyAt | spqr/chain.go:177-203 | past, current and future indices, with the jump limit, follow the value model |
| KeyChainObjects.ChainDirection.ClearNext | spqr/chain.go:205-205 | forgets the chain key and nothing else |
| KeyChainObjects.EpochChain.FoldSecret | spqr/chain.go:294-306 | a secret is accepted only for the next epoch and then adds one link of two fresh direction objects |
| KeyChainObjects.EpochChain.MoveSendEpoch | spqr/chain.go:331-340 | the two loops drop links and clear send objects as the value model does |
| KeyChainObjects.EpochChain.NextSendKey | spqr/chain.go:323-343 | steps the send object of the epoch, clears older ones and drops older links as the value model does |
| KeyChainObjects.EpochChain.ReceiveKey | spqr/chain.go:346-354 | asks the receive object of the epoch, and every other object stays as it was |
| WireMessage.AppendVarint | spqr/message.go:189-198 | the loop appends the base-128 form |
| WireMessage.ReadVarint | spqr/message.go:202-219 | the loop reads what the value model decodes, refusing overlong and truncated input |
| WireMessage.VarintRoundTrip | spqr/message.go:189-219 | a 64-bit varint reads back with its length, whatever follows |
| WireMessage.MessageRoundTrip | spqr/message.go:84-169 | every message a machine can produce reads back, with index and length, whatever follows |
| RatchetRuns.SendKeyReadable | spqr/chain.go:215-224 | drawing a send key leaves a chain the reader accepts |
| RatchetRuns.RecvKeyReadable | spqr/chain.go:215-224 | drawing a receive key leaves a chain the reader accepts |
| RatchetRuns.RecvV1Keeps | spqr/spqr.go:221-294 | a message of our version folds in at most the one secret that keeps the chain level with the machine |
| RatchetRuns.SendKeepsCoupled | spqr/spqr.go:156-215 | sending always succeeds, the stored machine and chain stay readable, and the chain stays one epoch behind or level with the machine |
| RatchetRuns.RecvKeepsCoupled | spqr/spqr.go:221-294 | receiving, whatever the bytes, keeps that |
| RatchetRuns.ChainFollowsMachine | spqr/spqr.go:156-294 | after any calls with any bytes the stored machine can be read, a send succeeds, the chain epoch follows the machine, one to three links are held, live send chains are not cleared, and without a chain no epoch secret is produced |
| RatchetRuns.VersionZeroStays | spqr/spqr.go:221-333 | a version 0 state stays version 0 |
| RatchetRuns.NegotiationNeverReopens | spqr/spqr.go:299-333 | closed negotiation stays closed |
| RatchetRuns.PinnedStays | spqr/spqr.go:299-333 | with a nonzero minimum the machine is never dropped |
| RatchetRuns.DowngradeIffMinimumZero | spqr/spqr.go:96-129 | a version 1 state can be downgraded by some calls if and only if its minimum version is 0 |
| Agreement.KeyIsStreamKey | spqr/chain.go:177-203 | a successful key request returns a key of the direction's stream at that index |
| Agreement.SendKeyAgrees | spqr/chain.go:323-343 | a send draws the next key of its epoch's stream |
| Agreement.RecvKeyAgrees | spqr/chain.go:346-354 | a receive draws from the peer's stream of that epoch |
| AgreementRuns.ReceivedKeyIsSentKey | spqr/spqr.go:156-294 | in every two-party run the stored machines can be read, and Recv of any message ever sent returns exactly the key its Send returned, including both returning none, or fails because that key is out of reach and for no other reason |
| Zq.ReduceOnce | internal/mlkem768incr/field.go:57-62 | with 16-bit underflow the result is the residue, for every value below 2q |
| Zq.FieldAdd | internal/mlkem768incr/field.go:64-66 | addition modulo q |
| Zq.FieldSub | internal/mlkem768incr/field.go:68-70 | subtraction modulo q through 16-bit wrap-around |
| Zq.BarrettQuotient | internal/mlkem768incr/field.go:77-81 | for every value below 2q^2 the quotient is the true one or one less |
| Zq.FieldReduce | internal/mlkem768incr/field.go:78-81 | Barrett reduction is the residue for every value below 2q^2 |
| Zq.FieldMul | internal/mlkem768incr/field.go:83-85 | multiplication modulo q within the Barrett bound |
| Zq.FieldMulSub | internal/mlkem768incr/field.go:88-90 | a(b - c) modulo q with one reduction within the bound |
| Zq.FieldAddMul | internal/mlkem768incr/field.go:93-97 | ab + cd modulo q with one reduction within the bound |
| Zq.TimesAssoc | internal/mlkem768incr/field.go:83-85 | multiplication modulo q associates |
| Zq.TimesPlus | internal/mlkem768incr/field.go:64-85 | multiplication distributes over addition |
| Rq.MulCoefficient | internal/mlkem768incr/field.go:118-122 | the ring product is the convolution wrapped around with a factor m |
| Rq.MulComm | internal/mlkem768incr/field.go:118-122 | the ring product commutes |
| Rq.MulAssoc | internal/mlkem768incr/field.go:118-122 | the ring product associates |
| Rq.LoMul | internal/mlkem768incr/field.go:277-293 | reducing modulo one factor of x^(2n) - z^2 is a ring homomorphism |
| Rq.JoinSplit | internal/mlkem768incr/field.go:295-314 | an inverse layer undoes a forward layer up to a factor of 2 |
| Rq.SplitJoin | internal/mlkem768incr/field.go:277-314 | a forward layer undoes an inverse layer up to a factor of 2 |
| NttTables.ZetaSquared | internal/mlkem768incr/field.go:275 | each table entry is a square root of the constant of the factor it splits |
| NttTables.ZetaMirror | internal/mlkem768incr/field.go:275-304 | the entry the inverse uses is minus the inverse of the forward one |
| NttTables.GammaIsRoot | internal/mlkem768incr/field.go:260 | the multiplication table holds the constants of the last factors |
| NttInPlace.SplitBlock | internal/mlkem768incr/field.go:284-289 | one block of butterflies splits it in place |
| NttInPlace.NttForward | internal/mlkem768incr/field.go:278-293 | the triple loop computes all remainders modulo the 128 quadratic factors |
| NttInPlace.JoinBlock | internal/mlkem768incr/field.go:302-307 | one inverse block joins its halves in place |
| NttInPlace.NttInverse | internal/mlkem768incr/field.go:296-314 | the loops join all layers and divide by 128 |
| NttInPlace.NttMul | internal/mlkem768incr/field.go:263-272 | the loop multiplies pairs modulo the quadratic factors |
| Ntt.InverseOfTransform | internal/mlkem768incr/field.go:277-314 | inverseNTT after ntt is the identity |
| Ntt.TransformOfInverse | internal/mlkem768incr/field.go:277-314 | ntt after inverseNTT is the identity |
| Ntt.TransformOfProduct | internal/mlkem768incr/field.go:263-293 | the transform turns multiplication modulo x^256 + 1 into nttMul |
| Ntt.ProductThroughTransform | internal/mlkem768incr/field.go:263-314 | multiplying in the transformed domain is multiplying modulo x^256 + 1 |
| RingCodec.Compress | internal/mlkem768incr/field.go:100-108 | the branch-free code rounds x 2^d / q to nearest, modulo 2^d (Definition 4.7 of FIPS 203) |
| RingCodec.Decompress | internal/mlkem768incr/field.go:111-116 | the shifts round y q / 2^d to nearest (Definition 4.8 of FIPS 203) |
| RingCodec.CompressDecompress | internal/mlkem768incr/field.go:99-116 | compressing a decompressed value gives it back |
| RingCodec.CompressionError | internal/mlkem768incr/field.go:99-116 | compressing loses at most half a step: 2, 104 or 832 |
| BitPacking.DecodeEncode | internal/mlkem768incr/field.go:139-171 | packed d-bit numbers come back from their bytes |
| BitPacking.EncodeDecode | internal/mlkem768incr/field.go:139-171 | bytes are determined by the numbers they pack |
| RingLoops.PolyByteEncode | internal/mlkem768incr/field.go:139-149 | the shift loop packs the coefficients' 12 bits one after the other |
| RingLoops.PolyByteDecode | internal/mlkem768incr/field.go:153-171 | refused exactly for a wrong length or an unreduced coefficient, otherwise the packed coefficients |
| RingLoops.CompressAndEncode10 | internal/mlkem768incr/field.go:226-242 | compressed coefficients packed at 10 bits |
| RingLoops.DecodeAndDecompress10 | internal/mlkem768incr/field.go:245-257 | 10-bit numbers unpacked and decompressed |
| RingLoops.CompressAndEncode4 | internal/mlkem768incr/field.go:207-213 | compressed coefficients packed at 4 bits |
| RingLoops.DecodeAndDecompress4 | internal/mlkem768incr/field.go:216-223 | 4-bit numbers unpacked and decompressed |
| RingLoops.CompressAndEncode1 | internal/mlkem768incr/field.go:186-193 | compressed bits packed into 32 bytes |
| RingLoops.DecodeAndDecompress1 | internal/mlkem768incr/field.go:196-204 | message bits as 0 or half of q |
| MlkemLoops.PolyAdd | internal/mlkem768incr/field.go:124-129 | coefficient-wise sum |
| MlkemLoops.PolySub | internal/mlkem768incr/field.go:131-136 | coefficient-wise difference |
| MlkemLoops.SamplePolyCbd | internal/mlkem768incr/field.go:354-370 | the byte loop computes differences of bit pairs (Algorithm 8 of FIPS 203) |
| Mlkem.CbdIsSmall | internal/mlkem768incr/field.go:354-370 | every sampled error lies between -2 and 2 |
| MlkemLoops.ExpandMatrix | internal/mlkem768incr/mlkem.go:92-97 | entry 3i + j of A is sampled with indices j, i |
| MlkemLoops.KemKeyGen | internal/mlkem768incr/mlkem.go:81-122 | the loops compute A s + e in the transformed domain and the hash of the encoded key |
| MlkemLoops.EncryptBytes | internal/mlkem768incr/mlkem.go:195-230 | the loops compute both ciphertext parts |
| MlkemLoops.DecryptBytes | internal/mlkem768incr/mlkem.go:257-272 | the loops compute the unmasked message bytes |
| MlkemLoops.DecapsulateBytes | internal/mlkem768incr/mlkem.go:234-253 | re-encryption decides between the shared and the rejection secret |
| MlkemLoops.Encapsulate1Internal | internal/mlkem768incr/incremental.go:174-230 | phase one from the header alone, refusing other header lengths |
| MlkemLoops.EncapsulateSecond | internal/mlkem768incr/incremental.go:235-267 | phase two from the repaired state, refusing bad lengths and unreduced keys |
| MlkemLoops.PolyToBytes | internal/mlkem768incr/incremental.go:379-383 | balanced coefficients as little-endian words |
| MlkemLoops.EncodeSaved | internal/mlkem768incr/incremental.go:343-354 | the saved state is the four polynomials and the message |
| Kpke.UnmaskedIsNoisy | internal/mlkem768incr/mlkem.go:195-272 | v - s u is the message polynomial plus e r + e2 + cv - s(e1 + cu) |
| Mlkem.BitSurvives | internal/mlkem768incr/mlkem.go:270-271 | a bit is recovered if and only if its noise is within [-832, 832] for 0 or [-832, 831] for 1 |
| Mlkem.DecryptIffNoiseOk | internal/mlkem768incr/mlkem.go:195-272 | decrypting an encryption gives the message if and only if every noise coefficient is within its bit's range |
| Mlkem.SmallNoiseDecrypts | internal/mlkem768incr/mlkem.go:195-272 | noise within 831 always decrypts |
| Mlkem.CompressionNoise | internal/mlkem768incr/mlkem.go:225-264 | an honest ciphertext carries u within 2 and v within 104 |
| Incremental.DecapsulateAgrees | internal/mlkem768incr/mlkem.go:182-253 | decryption recovers m exactly when the noise is survived, and then Decapsulate returns the encapsulator's key |
| Incremental.PolyRoundTrip | internal/mlkem768incr/field.go:139-171 | a polynomial reads back from its key encoding |
| Incremental.TwoPhasesAreOne | internal/mlkem768incr/incremental.go:174-267 | for every matching key and message the two phases yield the one-step ciphertext and secret, through the saved state |
| Incremental.MatchingValidates | internal/mlkem768incr/incremental.go:126-153 | header and encapsulation key of one key validate |
| Incremental.ExpandedRoundTrip | internal/mlkem768incr/incremental.go:297-325 | an expanded key parses back to the key |
| Incremental.GeneratedMatches | internal/mlkem768incr/incremental.go:75-86 | generated keys are matching keys |
| Incremental.IncrementalAgrees | internal/mlkem768incr/incremental.go:174-291 | the incremental form returns the encapsulated secret whenever the noise is survived |
| EncapsState.WordRoundTrip | internal/mlkem768incr/incremental.go:398-414 | a balanced coefficient reads back from its 16-bit word |
| EncapsState.StateRoundTrip | internal/mlkem768incr/incremental.go:343-371 | a saved state reads back |
| EncapsState.FixIsIdempotent | internal/mlkem768incr/incremental.go:429-470 | repairing twice is repairing once, for all 2080-byte inputs |
| EncapsState.FixKeepsWritten | internal/mlkem768incr/incremental.go:429-470 | a state written with sampled errors is left alone |
| EncapsState.FixUndoesSwap | internal/mlkem768incr/incremental.go:429-470 | a byte-swapped state is restored if and only if some error is neither 0 nor -1, or the swap changed nothing |
| EncapsState.FixEncapsStateEndianness | internal/mlkem768incr/incremental.go:429-470 | the two loops compute that repair, refusing other lengths |
| KemInstance.DrawsAreGood | internal/mlkem768incr/incremental.go:75-291 | generated keys validate, and a message whose noise is survived is decapsulated to the encapsulator's secret |
| KemInstance.InstanceIsSized | internal/mlkem768incr/incremental.go:75-291 | the incremental ML-KEM has the output lengths every SPQR theorem asks for |
| KemInstance.RunDrawsAreGood | spqr/v1.go:167-346 | at every point of every run over ML-KEM every draw is a good one, except a message drawn for the peer's key whose noise is not survived |
| KeyWindow.LeavesOnlyWhenFull | session/state.go:407-422 | a skipped index leaves the cache only by being served or behind 2000 later ones |
| KeyWindow.EachIndexOnce | session/cipher.go:319-351 | no index is served twice in any sequence of requests |
| Session.SecretsMatch | session/builder.go:193-356 | both sides of the handshake derive the same secret |
| Session.TakeSeedRefines | session/cipher.go:319-351 | one counter resolved on a chain is one request of the window, served with that many chain steps |
| Session.AddReceiver | session/state.go:348-358 | the new chain comes last, the newest of the others keep their order, and at most five remain |
| SessionObjects.SessionState.AddReceiverChain | session/state.go:348-358 | push, then drop the oldest beyond five |
| SessionObjects.SessionState.CacheMessageKeys | session/state.go:407-422 | insert in front, truncate beyond 2000 |
| SessionObjects.SessionState.TakeMessageKeys | session/state.go:429-446 | the first entry of an index is removed and returned |
| SessionObjects.SessionState.GetOrCreateChainKey | session/cipher.go:273-313 | an unseen ratchet key makes one DH step with a fresh key |
| SessionObjects.SessionState.GetOrCreateMessageKeys | session/cipher.go:319-351 | the stepping loop follows the value model |
| SessionObjects.SessionState.DecryptInPlace | session/cipher.go:215-269 | the in-place receive follows the value model |
| SessionObjects.SessionRecord.DecryptMessage | session/cipher.go:180-208 | the clone is committed only on success; a failure leaves the stored state unchanged |
| SessionObjects.SessionRecord.EncryptMessage | session/cipher.go:50-172 | a message is sealed under the current chain step and the chain advances |
| SessionRuns.KeptChain | session/cipher.go:215-351 | on a kept chain a message is accepted exactly if the window serves its counter and the post-quantum key agrees |
| SessionRuns.NewChain | session/cipher.go:273-313 | the peer's newest key meets the peer's chain after one DH step |
| SessionRuns.EvictedChain | session/state.go:348-358 | nothing sent on an evicted chain is accepted again |
| SessionRuns.ReflectedIsRefused | session/cipher.go:215-313 | a party refuses its own messages |
| SessionRuns.AcceptedWasSent | session/cipher.go:215-269 | whatever the network alters, reflects or adds without the session's keys, what is accepted is a message the peer sent, with its header unchanged |
| SessionRuns.RunsStayOneStepApart | session/cipher.go:273-313 | at every point of every run the two roots are exactly one DH step apart |
| SessionRuns.AcceptedOnce | session/cipher.go:180-351 | in every run with such a network every accepted message was sent by the peer, yields the plaintext sealed in it, and no ratchet key and counter is accepted twice |
| SessionRuns.AcceptedExactly | session/cipher.go:180-351 | which messages of the peer are accepted, as an if-and-only-if, for any post-quantum ratchet |
| SessionRuns.RunsSendOnce | session/cipher.go:79-166 | no two sent messages share ratchet key and counter |
| TripleRatchet.SpqrAgrees | session/state.go:165-172 | in a session over SPQR a message of the peer yields exactly the key that was mixed in, or its key is out of reach |
| TripleRatchet.AcceptedIffServed | session/cipher.go:180-351 | in every run of two sessions over SPQR a message of the peer is accepted if and only if SPQR has its key in reach and the Double Ratchet serves its counter, and the SPQR key always agrees |
| SenderKeys.ResolveRefines | groups/cipher.go:194-237 | resolving an iteration is one request of the window with the stream's key; only the last 32-bit iteration cannot be served |
| SenderKeys.GroupKeyIsSenders | groups/cipher.go:55-237 | in every sequence of 32-bit requests, the last one of a run included, each is answered exactly if it is short of the last iteration and the window serves it, and the answer is the sender's key of that iteration |
| SenderKeys.GroupKeyOnce | groups/cipher.go:194-237 | in every sequence of requests no iteration is answered twice |
| SenderKeys.SenderKeyState.AddSenderMessageKey | groups/state.go:226-231 | append, then drop the oldest beyond 2000 |
| SenderKeys.SenderKeyState.RemoveSenderMessageKey | groups/state.go:235-247 | the first entry of an iteration is removed and its key derived |
| SenderKeys.SenderKeyState.SenderKeyForIteration | groups/cipher.go:194-237 | the ratchet loop follows the value model, including its partial effect when the chain is too long |
| SenderKeys.SenderKeyRecord.AddSenderKeyState | groups/state.go:335-355 | a known state is moved to the front unchanged, its chain id occurs once, at most five states remain |
| SenderKeys.SenderKeyRecord.RemoveState | groups/state.go:359-368 | the first state of a chain id and signing key is taken out |
| SenderKeys.SenderKeyRecord.RemoveStatesWithChainId | groups/state.go:372-380 | all other states stay in order |
| SenderKeys.AddedTwice | groups/state.go:335-355 | processing a distribution again changes nothing |
| Polyval.Clmul64 | internal/crypto/gcmsiv/polyval.go:64-79 | the two accumulated words are the carry-less product |
| Polyval.Karatsuba | internal/crypto/gcmsiv/polyval.go:85-101 | the three-product identity over GF(2) |
| Polyval.Clmul128 | internal/crypto/gcmsiv/polyval.go:85-101 | the four words are the carry-less product of the elements |
| Polyval.Reduce | internal/crypto/gcmsiv/polyval.go:140-153 | folding the high bits yields the residue modulo x^128 + x^127 + x^126 + x^121 + 1 |
| Polyval.FieldMul | internal/crypto/gcmsiv/polyval.go:115-119 | the product in GF(2^128) |
| Polyval.FieldDot | internal/crypto/gcmsiv/polyval.go:123-125 | the product divided by x^128 |
| Polyval.XInvInverts | internal/crypto/gcmsiv/polyval.go:105-109 | the constant times x^128 is one |
| Polyval.DotTimesX128 | internal/crypto/gcmsiv/polyval.go:123-125 | the dot product times x^128 is the field product |
| Polyval.LoadStore | internal/crypto/gcmsiv/polyval.go:43-56 | a block loads and stores to itself |
| Polyval.HornerIsSum | internal/crypto/gcmsiv/polyval.go:159-168 | the running form spreads out into the sum of X_i H^(s-i+1) (section 3 of RFC 8452) |
| Polyval.PolyvalHash | internal/crypto/gcmsiv/polyval.go:159-168 | the loop computes that sum over the whole blocks |

## Left out

- Hash, HKDF, HMAC, SHAKE, AES-CBC, X25519 and signature internals: functions or free constructors.
- The rejection sampler `sampleNTT`: a function that yields 256 reduced coefficients.
- Probability of ML-KEM decryption failure: correctness is stated under the exact noise condition instead.
- Protobuf bytes: messages and stored states are datatypes; marshalling is not modelled.
- Key-derivation labels: their byte strings are constructors of `Primitives.Info` and `Primitives.MacInput`.
- Random sources and clocks: draws are parameters, and the stale-session check is not modelled.
- Store interfaces, identity trust checks, pre-key bookkeeping, session archiving and registration ids.
- Session and sender-key message versions, identity keys under the MAC, and signatures on group messages.
- Stored forms of the epoch key chain and the authenticator: copies of fields; of the chain's reader the length check is modelled.
- SPQR payload versions above 1: the negotiation paths that name them are modelled, their payloads are not.
- Sealed sender, fingerprints, account keys, usernames, addresses, message backup and the report packages: mostly fixed concatenations around library cryptography.
- Constant-time behaviour, zeroization and redaction.
- KeyStream.StreamRefinesOneShot: assumes that no 32-bit sum in the window test wraps, because with a wrap the test compares reduced numbers.
- AgreementRuns.ReceivedKeyIsSentKey: assumes room in the 32-bit send counters and 64-bit epochs.
- SessionRuns.AcceptedOnce: assumes that no sending chain reaches its last 32-bit indices.
- TripleRatchet.AcceptedIffServed: assumes that, good draws, and room in SPQR's counters and epochs.
- KeyStream.EachKeyAtMostOnce: assumes, like StreamRefinesOneShot, that no 32-bit sum in the window test wraps.
- V1Machine.Send: the value model of the whole step; updating encoders and the shared authenticator in place is not captured.
- V1Machine.Recv: the value model of the whole step; updating decoders and the shared authenticator in place is not captured.
- Ratchet.Send: on values; the chain object it drives is KeyChainObjects.EpochChain.
