# baitnet: a Dafny model and proofs

baitnet is a 40-bit overlay network with its own transport (ICSP), its own security
layer (bTLS, where the name of a server is a digest of its key) and gateways that
federate islands. This project models the parts of it whose correctness is not
visible from one function, and proves what they are for.

* **Cryptographic arithmetic** (`Field25519`, `FieldBytes`, `X25519`, `X25519Ladder`,
  `Poly1305`, `Poly1305Form`, `ScalarReduce`, `Sha512`, `Sha512Trace`, `Sha512Words`,
  `Sha512Roots`, `SecretBox`): the vendored TweetNaCl, as loops over arrays of machine
  integers. The element types `i64`, `u32` and `byte` are integer subsets, so every store is
  proved to fit: a method that verifies does not overflow. Each is proved against the number
  it stands for, or against the bignum form in the Python tree; and those forms against what
  the standards say: curve formulas, a polynomial, equations, roots of primes, bits.
* **ICSP data plane** (`IcspSession`, `IcspRun`, `IcspComplete`, `IcspAck`, `IcspSettle`,
  `IcspRecover`, `IcspRecords` after the Python; `IcspReplay`, `IcspGate`, `IcspOrder`,
  `IcspCum` after the C; `IcspWindow` joins the two windows): the association as a class, and
  runs of two endpoints over a network that loses, duplicates and reorders, rewrites clear
  headers and injects junk. A box is either sealed under a key and the nonce of (association,
  TSN), or does not open.
* **bTLS** (`Btls`, `BtlsSession`, `BtlsLockstep`, `BtlsPin`, `BtlsMessages` after the
  Python; `BtlsC` after the C; `BtlsBind` for both; `BaitName`): the handshake and record
  layer on bytes, the class that implements it, an honest pair over FIFO channels in every
  interleaving, one session fed anything, what two sessions with one secret agree on, and
  messages end to end. Agreement is up to a collision, which the lemma returns. Primitives
  are function parameters; `BtlsLockstep.Lawful` lists the laws used where any are, and `BtlsC.Binding` says that a box
  opens under no nonce but its own; `BtlsC.LawsTogether` shows that the two can hold at once.
* **Federation** (`Federation`, `FederationRun`), the **rate limiter** (`RateLimit`) and
  **CRC32c** (`Crc32c`).

`Limbs`, `ModArith`, `Machine`, `BitMask`, `Octets` and `Wrappers` hold what these share:
numbers in limbs, residues, bit operators on integers, byte strings.

State machines are written twice on purpose: as methods of a class that change fields the
way the source does, and as functions on a value that the methods are proved equal to;
the results about whole runs are about the functions. A run is a sequence of steps with a
predicate saying which step may come next, and the main results hold after every run.

Some properties the code might be expected to have hold only under a condition. The
condition is proved to be exact, in both directions:

* An acknowledged ICSP message has been delivered if and only if one stream is used and the
  first TSN is above 0 (`IcspAck.AckSoundExactly`): the cumulative TSN is a maximum over
  streams and starts at 0. While the newest message is unacked, the latest SACK acks everything
  if and only if that message has TSN 0 or arrived as the next of its stream
  (`IcspSettle.NewestDecides`): one that waited in the reorder buffer does not raise the
  cumulative TSN. In C every message that is read raises it, across any gap
  (`IcspCum.CumIsHighest`).
* A retransmitted chunk is accepted if and only if its TSN has not passed the window, under a
  genuine box or junk, and is less than 32 behind (`IcspRecover.ResentTakenExactly`); the
  window is marked before the box is opened. What is barred stays barred, and a pass of
  retransmission that arrives in full delivers every message if and only if each was accepted
  before or is unacked and not barred (`IcspRecover.RecoversExactly`).
* A delivery hands one record to bTLS if and only if the record after it had not been accepted
  before (`IcspRecords.RecordExactly`): everything that waited is joined to it, a session
  refuses the join, and no later record opens (`IcspRecords.LostForGood`).
* A DATA message is sent if and only if it has at most 1336 bytes (`IcspSession.SendLimit`);
  the limit written in `data_send` and its message is 1344.
* The C secretbox wrappers round-trip a message if and only if it has at most 1024 bytes
  (`SecretBox.WrapperRoundTrip`). So a C endpoint reads ICSP messages of at most 1016 bytes
  (`IcspGate.ReadableExactly`) and hands up bTLS messages of at most 1022
  (`BtlsC.ReceivesExactly`), of any longer one its last piece or nothing.
* On records the C library opens, with nothing behind their frame, the C and the Python
  session act alike if and only if the record opens or fails the length checks
  (`BtlsC.SameExactly`): the C counter moves before the box is opened, so one forged record
  ends what a C receiver hears (`BtlsC.OneForgedRecord`).
* A refill of the rate limiter gives what was earned if and only if the sum fits 32 bits or its
  cut still fills the bucket (`RateLimit.RefillExactly`). The callers ask for 5, 10 or 20
  tokens a second; up to 500 the sum always fits (`RateLimit.NeverCut`).

The code is followed where it differs from the documents; the bTLS specification gives 1360
bytes for a record payload and the code 1290.

Proofs are checked by `dafny verify dfyconfig.toml`.

## Model

| member | source | states |
|---|---|---|
| Field25519.Car25519 | c/lib/ed25519/src/tweetnacl.c:273-283 | one in-place carry pass: the limbs become the spec function Car of the old ones, inside i64 |
| Field25519.CarElem | c/lib/ed25519/src/tweetnacl.c:273-283 | a carry pass keeps the residue mod 2^255-19 of any limbs |
| Field25519.CarTwice | c/lib/ed25519/src/tweetnacl.c:354-363 | two passes bring products of bounded limbs back to the one limb bound the ladder works with |
| Field25519.CarThrice | c/lib/ed25519/src/tweetnacl.c:299-302 | three passes bring every limb of a bounded gf into [0, 65535] |
| Field25519.A | c/lib/ed25519/src/tweetnacl.c:342-346 | limbwise sum: the residue is the sum of residues, with an explicit limb bound |
| Field25519.Z | c/lib/ed25519/src/tweetnacl.c:348-352 | limbwise difference: the residue is the difference of residues, with an explicit limb bound |
| Field25519.M | c/lib/ed25519/src/tweetnacl.c:354-363 | for limbs within the A/Z bound, outputs limbs within the closed bound whose residue is the product; aliasing of output and inputs allowed; no i64 overflow |
| Field25519.S | c/lib/ed25519/src/tweetnacl.c:365-368 | the same for squares |
| Field25519.ProductElem | c/lib/ed25519/src/tweetnacl.c:354-360 | folding limbs 16..30 times 38 into 0..14 keeps the product mod 2^255-19 |
| FieldBytes.Sel25519 | c/lib/ed25519/src/tweetnacl.c:285-293 | the XOR-mask swap exchanges the two limb arrays exactly when the bit is 1, for all i64 limbs |
| FieldBytes.SubtractP | c/lib/ed25519/src/tweetnacl.c:304-311 | the borrow chain decides whether the value is below p and, when not, leaves exactly value - p |
| FieldBytes.BorrowDecides | c/lib/ed25519/src/tweetnacl.c:304-310 | the last borrow bit is 1 exactly when the value is below p |
| FieldBytes.Freeze | c/lib/ed25519/src/tweetnacl.c:299-313 | after three carries, two conditional subtractions leave the residue in [0, p) |
| FieldBytes.Pack25519 | c/lib/ed25519/src/tweetnacl.c:295-318 | the 32 bytes written hold exactly the canonical residue in [0, p) of the limbs |
| FieldBytes.PackedAlike | c/lib/ed25519/src/tweetnacl.c:320-326 | two bounded gf values pack to the same bytes if and only if they are congruent mod p |
| FieldBytes.Unpack25519 | c/lib/ed25519/src/tweetnacl.c:335-340 | reads 255 bits: limbs in [0, 65535], value the little-endian number with its top bit cleared |
| X25519.Inv25519 | c/lib/ed25519/src/tweetnacl.c:370-380 | raises to exactly p - 2, for in-place use too |
| X25519.InvExpFinal | c/lib/ed25519/src/tweetnacl.c:374-378 | the exponent that 254 squarings with multiplications skipped at 2 and 4 build is p - 2 |
| X25519.Rung | c/lib/ed25519/src/tweetnacl.c:410-431 | one pass of the ladder loop on limbs is one rung on residues: swap by difference of bits, double, add |
| X25519.RungAgrees | c/lib/ed25519/src/tweetnacl.c:412-429 | the order of operations in the loop gives the RFC 7748 differential double-and-add |
| X25519.BitOfByte | c/lib/ed25519/src/tweetnacl.c:409 | bit t of the scalar is bit t & 7 of byte t >> 3 |
| X25519.Climb | c/lib/ed25519/src/tweetnacl.c:403-432 | 255 limb rungs leave x2 and z2 of the ladder on residues, within one fixed limb bound throughout |
| X25519.ClampNumber | c/lib/ed25519/src/tweetnacl.c:401 | the clamped scalar is the number 2^254 + 8 * (n / 8 mod 2^251) |
| X25519.ClampScalar | c/lib/ed25519/src/tweetnacl.c:398-401 | the copy loop and the two masked bytes give that number |
| X25519.CryptoScalarmult | c/lib/ed25519/src/tweetnacl.c:394-443 | for every 32-byte scalar and point string the output is the X25519 value of section 5 of RFC 7748 |
| X25519Ladder.RungIsMontgomery | c/lib/ed25519/src/tweetnacl.c:410-431 | a rung is the doubling and differential addition of the curve with A = 486662, in projective form |
| X25519Ladder.LadderMultiplies | c/lib/ed25519/src/tweetnacl.c:403-432 | after n rungs the ladder holds the multiples of the point by the top n scalar bits and by one more, for every relation closed under those formulas |
| X25519Ladder.X25519Multiplies | c/lib/ed25519/src/tweetnacl.c:394-443 | the output is x times z to the p - 2 for such a multiple by 2^254 + 8 * (n / 8 mod 2^251) |
| Poly1305.Poly1305Bignum | python/src/baitnet/lib/crypto.py:80-94 | the loop over 16-byte slices computes the tag of section 2.5 of RFC 8439 |
| Poly1305.Add1305 | c/lib/ed25519/src/tweetnacl.c:171-179 | 17-limb addition with carry keeps the number and leaves 16 byte limbs |
| Poly1305.MulR | c/lib/ed25519/src/tweetnacl.c:205-209 | the row with its factor 320 wrap-around is congruent to h * r mod 2^130-5 and fits 32 bits |
| Poly1305.Squeeze | c/lib/ed25519/src/tweetnacl.c:210-223 | the lazy carries with the factor 5 keep the residue and restore the limb bound |
| Poly1305.LoadR | c/lib/ed25519/src/tweetnacl.c:189-197 | r is the key with the RFC 8439 clamp |
| Poly1305.SubtractDecides | c/lib/ed25519/src/tweetnacl.c:226-229 | adding minusp sets the sign limb exactly when h is at least 2^130-5 |
| Poly1305.FinalReduce | c/lib/ed25519/src/tweetnacl.c:226-229 | the branch-free subtraction leaves the full residue |
| Poly1305.AbsorbLimbs | c/lib/ed25519/src/tweetnacl.c:199-224 | after every block the limbs are congruent to the bignum accumulator, for every length |
| Poly1305.CryptoOneTimeAuth | c/lib/ed25519/src/tweetnacl.c:185-236 | for every message and key the 17-limb code writes the bignum tag, also when out overlaps message or key |
| Poly1305Form.ClampBits | c/lib/ed25519/src/tweetnacl.c:189-197 | bit by bit: r is the first key half without the top four bits of every 32 and the low two of the last three words |
| Poly1305Form.AbsorbIs | c/lib/ed25519/src/tweetnacl.c:199-224 | after n blocks the accumulator is the polynomial of their numbers at r mod 2^130-5 |
| Poly1305Form.TagIsPolynomial | c/lib/ed25519/src/tweetnacl.c:185-236 | the tag is that polynomial plus the second key half, mod 2^128 |
| Poly1305Form.PrimeIs | c/lib/ed25519/src/tweetnacl.c:181-183 | the modulus is 2^130 - 5 |
| ScalarReduce.FoldLimb | c/lib/ed25519/src/tweetnacl.c:697-706 | folding one high limb with the signed carry run keeps the number mod L and every limb inside i64 |
| ScalarReduce.FoldAll | c/lib/ed25519/src/tweetnacl.c:697-706 | folding limbs 63..32 keeps the number mod L and leaves 32 bounded limbs |
| ScalarReduce.SubtractTop | c/lib/ed25519/src/tweetnacl.c:707-712 | subtracting the top quotient times L leaves byte limbs and a carry of -1 or 0 |
| ScalarReduce.AddBack | c/lib/ed25519/src/tweetnacl.c:713 | adding carry times L keeps the number mod L |
| ScalarReduce.FinalResidue | c/lib/ed25519/src/tweetnacl.c:707-717 | the value after the two steps is in [0, L) |
| ScalarReduce.ModL | c/lib/ed25519/src/tweetnacl.c:694-718 | for any limbs its callers can pass, writes the unique residue in [0, L), with no i64 overflow |
| ScalarReduce.Reduce | c/lib/ed25519/src/tweetnacl.c:720-726 | 64 bytes become the 32-byte residue mod L of the number they hold |
| ScalarReduce.SignScalar | c/lib/ed25519/src/tweetnacl.c:752-755 | the scalar half of a signature is (r + h * a) mod L |
| ScalarReduce.OrderIs | c/lib/ed25519/src/tweetnacl.c:692 | the table L holds 2^252 + 27742317777372353535851937790883648493 |
| Sha512.Schedule | c/lib/ed25519/src/tweetnacl.c:533-535 | sixteen words updated in place, reading old and new ones, become the next sixteen expanded words |
| Sha512.RoundStep | c/lib/ed25519/src/tweetnacl.c:527-532 | one round with the b array and rotation is the FIPS 180-4 step on a..h |
| Sha512.RoundLoop | c/lib/ed25519/src/tweetnacl.c:526-536 | 80 rounds over a 16-word window equal 80 steps over the full expansion |
| Sha512.CryptoHashblocks | c/lib/ed25519/src/tweetnacl.c:519-549 | the state moves over every whole block; the result is the length left over |
| Sha512.TailIsPad | c/lib/ed25519/src/tweetnacl.c:568-580 | the one- or two-block tail with x[n-9] and ts64 is the end of the standard padding |
| Sha512.CryptoHash | c/lib/ed25519/src/tweetnacl.c:562-586 | for every message the output words are SHA-512 of section 6.4 of FIPS 180-4, for any word functions and constants |
| Sha512.WordsDetermine | c/lib/ed25519/src/tweetnacl.c:35-52 | a byte string of whole words is determined by its words |
| Sha512Trace.HashIsTrace | c/lib/ed25519/src/tweetnacl.c:519-586 | whatever words, working variables and hash values satisfy the equations of section 6.4.2 of FIPS 180-4 over the padded message, they end in the hash |
| Sha512Trace.TraceExists | c/lib/ed25519/src/tweetnacl.c:519-586 | every message of fewer than 2^128 bits has such values |
| Sha512Trace.PaddedIsPad | c/lib/ed25519/src/tweetnacl.c:568-580 | the only string with the padding of section 5.1.2 is the one the hash is taken over |
| Sha512Words.StandardChoices | c/lib/ed25519/src/tweetnacl.c:488-489 | under any mask: Ch takes y where x has ones and z where it has zeros; Maj agrees with any two arguments that agree |
| Sha512Words.StandardSigmas | c/lib/ed25519/src/tweetnacl.c:490-493 | the four functions of one word, as rotations and shifts to the right |
| Sha512Roots.ConstantsAreCubeRoots | c/lib/ed25519/src/tweetnacl.c:495-517 | each round constant is the first 64 bits of the fractional part of the cube root of its prime |
| Sha512Roots.StartIsSquareRoots | c/lib/ed25519/src/tweetnacl.c:551-560 | each word of the initial value is that of the square root of its prime |
| Sha512Words.ShiftsRotate | c/lib/ed25519/src/tweetnacl.c:487-493 | the two shifts of R rotate, for each distance used |
| Sha512Words.Hash512 | c/lib/ed25519/src/tweetnacl.c:487-586 | crypto_hash with its own functions, constants and initial value |
| SecretBox.NextCounter | c/lib/ed25519/src/tweetnacl.c:138-143 | the carry loop adds one to the number in z[8..16), mod 2^64, and leaves z[0..8) |
| SecretBox.CounterParts | c/lib/ed25519/src/tweetnacl.c:130-132 | the input of block i is the nonce half and then the eight bytes of i, low byte first |
| SecretBox.CountersDiffer | c/lib/ed25519/src/tweetnacl.c:138-143 | no two blocks of one nonce have the same input |
| SecretBox.StreamXor | c/lib/ed25519/src/tweetnacl.c:125-150 | each byte is xored with byte j mod 64 of keystream block j / 64, for whole and partial blocks, in place or not |
| SecretBox.CryptoStreamXor | c/lib/ed25519/src/tweetnacl.c:157-169 | the stream under the subkey, bare or xored; the rest of the buffer is untouched |
| SecretBox.StreamOfBlock | c/lib/ed25519/src/tweetnacl.c:157-169 | byte 64 i + j is the message byte xored with byte j of the core on the nonce half and the bytes of i |
| SecretBox.KeystreamBlock | c/lib/ed25519/src/tweetnacl.c:157-163 | over zeros, bytes 64 i to 64 i + 63 are the core on the nonce half and the bytes of i |
| SecretBox.CryptoVerify16 | c/lib/ed25519/src/tweetnacl.c:54-64 | 0 exactly when the 16 bytes are equal, -1 otherwise |
| SecretBox.TagInPlace | c/lib/ed25519/src/tweetnacl.c:250-251 | the tag over c[32..d) under c[0..32) may overwrite c[16..32) |
| SecretBox.CryptoSecretbox | c/lib/ed25519/src/tweetnacl.c:245-253 | d < 32 is refused; otherwise the box is 16 zeros, the tag, the stream |
| SecretBox.BoxIs | c/lib/ed25519/src/tweetnacl.c:245-253 | a box is 16 zeros, the tag of the rest under the first half of the core on block 0, and the message xored with the stream |
| SecretBox.CryptoSecretboxOpen | c/lib/ed25519/src/tweetnacl.c:255-265 | opens exactly the boxes whose tag matches; otherwise nothing is written |
| SecretBox.OpenExactly | c/lib/ed25519/src/tweetnacl.c:245-265 | a box of the message length opens to a padded message if and only if its tag and body are those sealing makes |
| SecretBox.OpenUndoesSeal | c/lib/ed25519/src/tweetnacl.c:245-265 | opening undoes sealing for every message of at least 32 bytes with 32 leading zeros |
| SecretBox.WrapperRoundTrip | c/lib/ed25519/src/ed25519.c:198-226 | the library wrappers round-trip a message if and only if it has at most 1024 bytes |
| IcspSession.Assoc.ResetDataPlane | python/src/baitnet/icsp/session.py:113-118 | the data plane is fresh, keys untouched |
| IcspSession.Assoc.DataSend | python/src/baitnet/icsp/session.py:304-322 | new state and result are those of the function Send: numbering, sealing, queueing, and the TSN that is lost when the packet is too long |
| IcspSession.SendLimit | python/src/baitnet/icsp/session.py:304-322 | a message is sent if and only if there is a key and it has at most 1336 bytes; 1337 to 1344 bytes cost a TSN and fail |
| IcspSession.Assoc.DataRetransmit | python/src/baitnet/icsp/session.py:324-333 | sends what Resent lists |
| IcspSession.ResentExactly | python/src/baitnet/icsp/session.py:324-333 | a chunk is resent if and only if an unacked, due entry holds it |
| IcspSession.Assoc.AllAcked | python/src/baitnet/icsp/session.py:335-336 | true exactly when every entry is acked |
| IcspSession.Assoc.HandleData | python/src/baitnet/icsp/session.py:338-377 | new state and outcome are those of the function Receive: window, opening, header check, gate, reorder buffer, drain |
| IcspSession.Assoc.Drain | python/src/baitnet/icsp/session.py:368-374 | pops exactly the consecutive run from next on |
| IcspSession.Assoc.HandleSack | python/src/baitnet/icsp/session.py:397-402 | an entry is acked afterwards exactly when it was or its TSN is at most the cumulative TSN; nothing else changes |
| IcspRun.InOrderAdvance | python/src/baitnet/icsp/session.py:365-377 | delivering the next message and the buffered run keeps delivered bytes equal to a concatenated prefix |
| IcspRun.RunKeeps | python/src/baitnet/icsp/session.py:304-414 | in every run of two endpoints over a lossy, duplicating, reordering network that also rewrites clear headers and injects junk, boxes, buffers and deliveries stay honest in both directions |
| IcspRun.DeliveryIsPrefix | python/src/baitnet/icsp/session.py:304-377 | the bytes delivered on each stream are always the concatenation of the first recv_seq messages sent on it |
| IcspComplete.DeliversAllWithoutGap | python/src/baitnet/icsp/session.py:360-377 | what is delivered is exactly the messages before the first one not accepted |
| IcspComplete.DrainedStops | python/src/baitnet/icsp/session.py:368-374 | draining stops at the first missing message |
| IcspAck.AckedIsDelivered | python/src/baitnet/icsp/session.py:324-402 | one stream, first TSN above 0: an acked entry and all before it have been delivered, in every run with honest SACKs |
| IcspAck.AckSoundExactly | python/src/baitnet/icsp/session.py:94-118 | acknowledgement means delivery in every fair run if and only if the first TSN is above 0 and one stream is used |
| IcspAck.AckTooEarly | python/src/baitnet/icsp/session.py:324-402 | the run in which a lost message is marked acked |
| IcspSettle.CumIsHighest | python/src/baitnet/icsp/session.py:338-377 | in every run the cumulative TSN is the highest that arrived as the next of its stream, or 0 |
| IcspSettle.MarkedExactly | python/src/baitnet/icsp/session.py:397-402 | in every run the latest SACK leaves an entry acked exactly when it was, its TSN is 0, or one at least as large arrived as the next of its stream |
| IcspSettle.EverythingAcked | python/src/baitnet/icsp/session.py:338-402 | for any number of streams: when everything sent was delivered, each chunk accepted as the next of its stream, the latest SACK leaves every entry acked |
| IcspSettle.NewestDecides | python/src/baitnet/icsp/session.py:338-402 | in any order of arrival: while the newest entry is unacked, the latest SACK acks all exactly when that entry has TSN 0 or arrived as the next of its stream |
| IcspRecords.OneMessageExactly | python/src/baitnet/icsp/session.py:365-377 | in every run, a delivery hands up the next message alone if and only if the message after it was not accepted before; otherwise a join that starts with it |
| IcspRecords.RecordExactly | python/src/baitnet/icsp/session.py:442-457 | what recv_record returns is one record, the next, if and only if the record after it was not accepted before; otherwise every session refuses it unchanged |
| IcspRecords.HandshakeFramed | python/src/baitnet/bite/btls.py:137-281 | the length field of every handshake record covers exactly what follows it |
| IcspRecords.PiecesFramed | python/src/baitnet/bite/btls.py:284-296 | so does that of every application record |
| IcspRecords.LostForGood | python/src/baitnet/bite/btls.py:121-135 | once a record was refused in a join no later message gets through, for every list of messages |
| IcspRecover.RunRecords | python/src/baitnet/icsp/session.py:346-356 | in every run the window is exactly the record of the TSNs that passed, genuine or junk |
| IcspRecover.ResentTakenExactly | python/src/baitnet/icsp/session.py:324-360 | in every run, a resent chunk is accepted if and only if its TSN has not passed and is less than 32 behind |
| IcspRecover.BarredForGood | python/src/baitnet/icsp/session.py:346-377 | otherwise, in every continuation, its message is never accepted and its stream stops before it |
| IcspRecover.JunkBars | python/src/baitnet/icsp/session.py:346-360 | 32 bytes of junk under an open TSN bar its message for good |
| IcspRecover.RecoversExactly | python/src/baitnet/icsp/session.py:324-377 | resending everything not acked, all of it arriving, delivers every message sent if and only if each was accepted before or is unacked with a TSN still open |
| IcspReplay.AdmitKeeps | c/src/ICSP/icsp_data.c:199-217 | a TSN passes exactly when it is new and less than 32 behind; the 32-bit mask stays the exact record of the last 32 TSNs |
| IcspReplay.NoTsnPassesTwice | c/src/ICSP/icsp_data.c:199-217 | whatever arrives, no TSN passes twice |
| IcspReplay.NewBits | c/src/ICSP/icsp_data.c:206-216 | each mask bit after an arrival, through shift, truncation and set |
| IcspWindow.WindowsAgree | python/src/baitnet/icsp/session.py:346-356 | the unbounded Python mask and the 32-bit C mask let the same TSNs through |
| IcspWindow.NoTsnPassesTwice | python/src/baitnet/icsp/session.py:346-356 | no TSN passes the Python window twice |
| IcspGate.Assoc.GetStream | c/src/ICSP/icsp_data.c:36-57 | finds or adds the slot, None when all eight are taken |
| IcspGate.Assoc.DataSend | c/src/ICSP/icsp_data.c:59-111 | new state and header are those of the function Send: the slot is made before the length test, TSN and stream number wrap, the entry is queued while there is room |
| IcspGate.Assoc.Pass | c/src/ICSP/icsp_data.c:206-217 | the window update in place is the function Admit |
| IcspGate.Assoc.DataHandle | c/src/ICSP/icsp_data.c:193-256 | new state and outcome are those of the function Receive: the window is marked first, then length limits, opening, header, gate; what fits the caller's buffer is handed out, or the message is queued |
| IcspGate.ReadableExactly | c/lib/ed25519/src/ed25519.c:212-226 | a C endpoint reads the box of a message if and only if the message has at most 1016 bytes |
| IcspGate.SendsExactly | c/src/ICSP/icsp_data.c:71-76 | a message goes out if and only if there is a key, its stream has or can get one of eight slots, and it has at most 1400 bytes |
| IcspGate.SentOnSlot | c/src/ICSP/icsp_data.c:76-107 | header, TSN, stream number, and the entry among the first sixteen |
| IcspGate.SentOnNew | c/src/ICSP/icsp_data.c:44-57 | a new stream gets the next slot and starts at 0 |
| IcspGate.ReceivesExactly | c/src/ICSP/icsp_data.c:199-248 | read exactly when the window passes it, the box opens and the headers are equal; delivered exactly when its stream waits for it; how the cumulative TSN, the kept messages and the window change |
| IcspGate.DeliveredOnSlot | c/src/ICSP/icsp_data.c:230-242 | a delivery moves its own stream on by one and no other slot |
| IcspGate.Assoc.HandleSack | c/src/ICSP/icsp_data.c:257-263 | an entry is acked afterwards exactly when it was or its TSN is at most the cumulative TSN; nothing else changes |
| IcspCum.CumIsHighest | c/src/ICSP/icsp_data.c:199-256 | in every run the cumulative TSN is the highest TSN ever read, in order or not |
| IcspCum.RemembersFirst | c/src/ICSP/icsp_data.c:97-106 | the entries are the first sixteen headers sent, in order |
| IcspCum.AckedExactly | c/src/ICSP/icsp_data.c:257-263 | an entry is acked exactly when a SACK of at least its TSN came while it was there |
| IcspOrder.WrapIsFar | c/src/ICSP/icsp_data.c:74-107 | a stream number 2^16 - 1 behind is at least 65535 TSNs behind |
| IcspOrder.NewestOnStream | c/src/ICSP/icsp_data.c:199-240 | what the gate lets through is newer than all deliveries of its stream |
| IcspOrder.DeliveredInSendOrder | c/src/ICSP/icsp_data.c:59-256 | in every run each stream delivers sent messages in strictly increasing send order, across wraps of the 16-bit number, and hands out their bytes as far as the buffer reaches |
| IcspOrder.GateOpens | c/src/ICSP/icsp_data.c:229-240 | no stream blocks another: when the earlier messages of its own stream were delivered, whatever others miss, the next one is delivered on arrival |
| BtlsSession.Session.constructor | python/src/baitnet/bite/btls.py:71-95 | a fresh session |
| BtlsSession.Session.Start | python/src/baitnet/bite/btls.py:137-144 | new state and record are those of ClientStart |
| BtlsSession.Session.FeedRecord | python/src/baitnet/bite/btls.py:154-193 | new state and code are those of Feed, on success and on every failure |
| BtlsSession.Session.FeedHs | python/src/baitnet/bite/btls.py:195-244 | new state and code are those of FeedFrame |
| BtlsSession.Session.PumpRecord | python/src/baitnet/bite/btls.py:246-281 | new state and record are those of Pump |
| BtlsSession.Session.SendMessage | python/src/baitnet/bite/btls.py:284-296 | the fragment loop makes the records of SendApp |
| BtlsSession.Session.RecvMessage | python/src/baitnet/bite/btls.py:298-314 | new state and outcome are those of RecvApp |
| BtlsLockstep.Scripted | python/src/baitnet/bite/btls.py:137-281 | in every interleaving the two ends and both channels are at one point of the handshake script |
| BtlsLockstep.Lockstep | python/src/baitnet/bite/btls.py:112-281 | no feed fails; transcripts are prefixes of one another; send_seq minus the peer recv_seq is the sealed records in flight; nothing is sealed twice; keys mirror; two done sides agree on everything |
| BtlsLockstep.CanFinish | python/src/baitnet/bite/btls.py:137-281 | from wherever a run has got to, both sides can still reach done |
| BtlsPin.NamePin | python/src/baitnet/bite/btls.py:154-281 | whatever is fed, a done client verified CertificateVerify over CH, SH, CERT and a Finished after it under the kept key; a dialled label is that key's label and decodes to its class C address |
| BtlsPin.ServerPin | python/src/baitnet/bite/btls.py:203-213 | whatever is fed, a done server verified a client Finished over its whole transcript |
| BtlsBind.KdfBinds | python/src/baitnet/lib/crypto.py:115-117 | two equal keys of one secret have the same label over the same bytes, or the lemma returns a MAC collision |
| BtlsBind.CertDigestBinds | python/src/baitnet/bite/btls.py:101-102 | two equal digests to be signed are over the same transcript, or the lemma returns a hash collision |
| BtlsBind.PrkBinds | python/src/baitnet/bite/btls.py:107-110 | two equal secrets are of the same Diffie-Hellman value, or the lemma returns a collision |
| BtlsBind.ReachedTraced | python/src/baitnet/bite/btls.py:104-118 | whatever is fed, in Python or C: the keys and the own Finished are the MACs of label, transcript and a one byte |
| BtlsBind.ServerFinishedAgrees | python/src/baitnet/bite/btls.py:203-281 | a done client that accepted the Finished of a server with its secret agrees with it on CH, SH, CERT and CV, or a collision is returned |
| BtlsBind.ClientFinishedAgrees | python/src/baitnet/bite/btls.py:203-281 | when both are done and the server accepted the Finished of that client they agree on everything before it, or a collision is returned |
| BtlsBind.KeysAgree | python/src/baitnet/bite/btls.py:112-118 | if one session sends with the key another with its secret receives with, they are in one epoch, in opposite roles, with keys over one transcript, or a collision is returned |
| BtlsBind.SealedRecord | python/src/baitnet/bite/btls.py:121-124 | a sealed record is type, length, and the box under the sending key and the nonce of the counter, which moves on |
| BtlsMessages.MessagesArrive | python/src/baitnet/bite/btls.py:284-314 | for every list of messages of 1 to 262144 bytes, feeding the records in order gives back exactly that list |
| BtlsMessages.RecordsShort | python/src/baitnet/bite/btls.py:121-124 | no record is longer than 1327 bytes |
| BtlsMessages.RecordsFit | python/src/baitnet/icsp/framing.py:64-67 | every record is accepted by data_send and the packet limit |
| BtlsC.BufferNeverTruncates | c/src/BITE/btls.c:34-41 | whatever is fed to the C session, in either role, its 512-byte transcript buffer never drops a frame: it acts as with any buffer of 306 bytes or more |
| BtlsC.CutFrame | c/src/BITE/btls.c:259-326 | feed_hs treats a frame with bytes behind it as the Python treats the frame alone |
| BtlsC.SameExactly | c/src/BITE/btls.c:182-206 | on records without such bytes the C and Python sessions act alike if and only if the record is not one that passes the length checks and does not open |
| BtlsC.NamePinC | c/src/BITE/btls.c:259-382 | whatever is fed, a done C client has verified CertificateVerify and Finished under a key that carries the kept label |
| BtlsC.ServerPinC | c/src/BITE/btls.c:271-286 | whatever is fed, a done C server has verified a client Finished over its whole transcript |
| BtlsC.MessagesArriveC | c/src/BITE/btls.c:464-533 | for every list of messages, a C receiver hands up the last pieces of at most 1022 bytes and nothing else; no failure exactly when no message is longer |
| BtlsC.ReceivesExactly | c/src/BITE/btls.c:497-533 | a C receiver hands up a message if and only if it has at most 1022 bytes |
| BtlsC.OneForgedRecord | c/src/BITE/btls.c:182-206 | after one forged record that passes the length checks the Python receiver gets every later message and the C receiver none, ever |
| BaitName.LabelFromDigest | python/src/baitnet/bite/names.py:18-31 | the unbounded accumulator spells the 160 bits in quintets |
| BaitName.LabelFromDigest32 | c/src/BITE/baitname.c:27-44 | so does the wrapping 32-bit accumulator |
| BaitName.DecodeLabel | python/src/baitnet/bite/names.py:34-55 | decodes the first eight characters of a valid label, the Kelvin sign read as k, into the address |
| BaitName.DecodeLabel32 | c/src/BITE/baitname.c:56-84 | for one-byte characters: fails exactly when one of eight is not base32; otherwise the same address |
| BaitName.LabelNamesAddress | python/src/baitnet/core/addr.py:35-56 | the label of a digest decodes to the class C address derived from it |
| BaitName.AlphabetIs | python/src/baitnet/core/constants.py:75 | the alphabet is that of section 6 of RFC 4648 |
| BaitName.LabelSpellsDigest | python/src/baitnet/bite/names.py:18-31 | the 32 characters spell the number of the first twenty digest bytes |
| BaitName.AddressIsClassC | python/src/baitnet/core/addr.py:35-56 | the address lies in class C and its low 38 bits are those of the first five digest bytes |
| Federation.FindBest | c/src/IPv69/ipv69gw.c:87-99 | longest prefix match: the first of the most specific ranges, none only when none matches |
| Federation.InRangeBits | c/src/IPv69/parse.c:255-260 | a range holds an address exactly when their leading bits are equal, bit by bit |
| Federation.InRangeEnds | c/src/IPv69/parse.c:255-260 | prefix 40 means equality, prefix 0 holds everything, a longer prefix holds no more |
| Federation.ClassBits | c/src/IPv69/parse.c:214-223 | the class is read from the leading bits |
| Federation.Gateway.RouteOn | c/src/IPv69/ipv69gw.c:729-742 | the owner of the best route, unless that is the arrival link; else every other link |
| Federation.Gateway.FedData | c/src/IPv69/ipv69gw.c:697-743 | exactly when a frame is dropped, goes to which broadcast peers, to the one client that owns it, to the wire, or to which links: distinct, never the arrival link |
| Federation.Gateway.FedQuery | c/src/IPv69/ipv69gw.c:655-682 | answers exactly when the best peer has an IPv4 endpoint; asks all other links and takes a slot exactly when nobody matches, the address is not pending and a slot is free |
| FederationRun.ForwardIsDistinct | c/src/IPv69/ipv69gw.c:697-743 | a walk that never turns straight back meets no gateway twice in an acyclic graph |
| FederationRun.ForwardIsUnique | c/src/IPv69/ipv69gw.c:697-743 | two such walks between the same gateways are equal |
| FederationRun.FrameSpreadsOnce | c/src/IPv69/ipv69gw.c:655-743 | on every acyclic graph and in every run, whatever the tables hold: one copy per gateway at most, none to the origin, each link crossed at most once, fewer copies than gateways |
| FederationRun.ForwardData | c/src/IPv69/ipv69gw.c:697-743 | the links gw_fed_data chooses are such a forwarding step |
| FederationRun.ForwardQuery | c/src/IPv69/ipv69gw.c:655-682 | the links gw_fed_handle chooses for a GW_Q are one too |
| RateLimit.Limiter.RateAllow | c/src/IPv69/ratelimit.c:24-67 | the table and answer after a call are those of the function Allow |
| RateLimit.Limiter.FindSlot | c/src/IPv69/ratelimit.c:30-46 | the search loop ends at the slot of the function Slot |
| RateLimit.AllowTidy | c/src/IPv69/ratelimit.c:24-67 | used slots stay a prefix with distinct ids, and the caller has one |
| RateLimit.SlotExactly | c/src/IPv69/ratelimit.c:30-46 | the slot is the sender's own; or else the first free one; or else, with all taken by others, the first with the smallest time stamp |
| RateLimit.AllowExactly | c/src/IPv69/ratelimit.c:47-66 | one slot is written and stamped; the cost is granted exactly when the bucket holds it, the rest is left, and nothing after a refusal; a newcomer holds the burst |
| RateLimit.EarnedExactly | c/src/IPv69/ratelimit.c:54-56 | the time gone by is the clock difference mod 2^32, and earns a token for every thousandth of rate times time |
| RateLimit.RateBound | c/src/IPv69/ratelimit.c:24-67 | for a sender whose bucket is not evicted, whatever rates and bursts its calls ask for, the cost granted is at most the highest burst, one more for every time its clock went back, and the highest rate times the time gone forward, across clock wraps |
| RateLimit.OrderedBound | c/src/IPv69/ratelimit.c:24-67 | while the clock never goes back: at most the highest burst and the highest rate times the interval |
| RateLimit.BoundReached | c/src/IPv69/ratelimit.c:48-66 | the bound for a clock that goes back is reached: a burst is granted at every step back |
| RateLimit.StepBack | c/src/IPv69/ratelimit.c:54-60 | after a clock set back by d ms the bucket is full exactly when 2^32 - d ms of the rate would fill it |
| RateLimit.FewSendersKept | c/src/IPv69/ratelimit.c:30-53 | while at most 64 senders call, no bucket is evicted |
| RateLimit.RefillExactly | c/src/IPv69/ratelimit.c:53-60 | for every bucket: what was earned, up to the burst, is there if and only if the sum fits 32 bits or its cut still fills the bucket, and the clock moved or the bucket holds no more than the burst |
| RateLimit.NeverCut | c/src/IPv69/ratelimit.c:53-66 | up to 500 tokens a second the sum always fits, and a cost is granted exactly when burst and earned tokens cover it |
| RateLimit.RefillCut | c/src/IPv69/ratelimit.c:56-58 | a refill on the failing side of RefillExactly |
| Crc32c.CrcInit | c/src/ICSP/icsp.c:15-24 | the table holds eight bit-steps of every byte value |
| Crc32c.TableStep | python/src/baitnet/core/crc.py:9-25 | eight bit-steps are one look-up xored with the shifted register |
| Crc32c.IcspCrc32c | c/src/ICSP/icsp.c:26-34 | the table form equals the bit-at-a-time reflected Castagnoli register for every input |
| Crc32c.BurstDetected | c/src/ICSP/icsp.c:26-34 | equal-length inputs that differ only within four consecutive bytes have different checksums |
| Crc32c.PolynomialMirrored | c/src/ICSP/icsp.c:14-21 | bit i of the polynomial is bit 31 - i of 0x1EDC6F41 |
| Crc32c.OneBitExactly | c/src/ICSP/icsp.c:20-21 | one step bit by bit: every bit moves down and the lowest is added where the polynomial has a one |
| Crc32c.CheckValue | c/src/ICSP/icsp.c:26-34 | the checksum of ff ff ff ff 80 is 7d09c487 |

## Left out

- The Salsa20 core and HSalsa20 are an arbitrary function of block input and key; the library calls behind the Python `seal`, `open_`, `sign`, `verify` and X25519 are function parameters too.
- Elliptic-curve group laws, the Edwards signature equation, primality of p and L: the ladder is proved to follow the curve's doubling and differential addition formulas, and that those add points is not proved; the rest is modular arithmetic.
- Cryptographic hardness: a box that was not sealed does not open in the ICSP runs, by construction; bTLS lockstep assumes only that opening undoes sealing.
- Packets that carry several chunks, and the byte-level walk over chunks: one chunk travels per packet, as every sender in the tree builds them.
- ICSP handshake, cookie, heartbeat, shutdown, rekey and STREAM_RESET; an unprotected STREAM_RESET sets the receive number back to 0, and no delivery claim covers it.
- Clock time: which queue entries are due for retransmission is a parameter, and so are the clock of the rate limiter and the initial TSN.
- The C retransmission path: the data field of a queue entry is never filled, so what it seals again is not a message.
- IcspRun.DeliveryIsPrefix: fewer than 2^16 messages per stream, because the drain loop counts past 65535 without wrapping.
- IcspAck.AckedIsDelivered: the TSN does not wrap and SACKs reaching the sender were sent by its peer, because SACK chunks are neither sealed nor compared modulo 2^32.
- IcspOrder.DeliveredInSendOrder: the TSN does not wrap, because TSNs are compared as plain integers.
- The 2^64-th record of a bTLS epoch, where the Python counter no longer fits the nonce; an exception from X25519 on a low-order key; identity hiding boxes.
- The C bTLS session as a class: `BtlsC` gives its rules on values, over the fields of the Python session, with its hello random drawn beforehand. The position `btls_send_app` keeps in the caller's buffer is not modelled.
- IcspRecover.RecoversExactly: the TSN does not wrap; IcspRecords.LostForGood: fewer than 2^64 records.
- `crypto_scalarmult` keeps a copy of the scalar and the unpacked point in two separate arrays here; the original keeps one 80-limb array of which it uses the first 16 limbs for the point.
- Gateways: sockets, the peer table's learning and expiry, GW_ANN authentication, GW_R relay, route learning and expiry; a frame that leaves through the local wire is not followed. A link that duplicates datagrams is not modelled.
- RateLimit.RateBound: rate, burst and cost are non-negative, as every caller passes them; an evicted sender starts again from a full bucket, and `RateLimit.FewSendersKept` says when none is evicted.
- Packet-level single-bit detection: the ICSP header keeps 16 of the 32 checksum bits, so the claim is made for the checksum itself.
- The DHCP69 lease table, PPPoE69 sessions, header packing, address text, keyring files, command line and transports: only easy members, or plumbing.
