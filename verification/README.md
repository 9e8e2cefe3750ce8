# Models of the cryptographic lockers

The repository describes a RISC-V extension in which keys live in *lockers*: small state machines that are driven by
`kl.setst`, `kl.exec` and management instructions, can be interrupted inside an instruction, and can be exported and
imported as Serialized Content. Its executable models come in pairs: a step-wise Machine, and a one-shot definition of the
same algorithm as its standard gives it. This project models both halves of each pair and proves that they agree over every
run, and proves what the standards and the extension promise of the algorithms themselves.

- **ML-DSA** (FIPS 204): the in-place transforms, rounding, hints, codecs, sampling, key generation, signing and
  verification. Every signature returned verifies, and verification accepts exactly the encodings that satisfy the ring
  equation. The locker's interrupted signing series end with the uninterrupted signature.
- **AEAD Machines**: GCM and GCM_IV, GCM-SIV, OCB and OCB_NONCE, CMAC. Bit by bit, over any run of instructions, what a
  locker hands out is what the standard's definition computes; the definitions multiply, double, pad and count on integers,
  apart from the Machines' bit fields. Export followed by import is characterized by what later runs can see.
- **Hash Machines**: SHA-2, SM3, BLAKE2, SHA-3, SHAKE and HMAC, absorbed in any chunks and read in any pieces.
- **ML-KEM** (FIPS 203): transforms, codecs, compression; decryption exactly when the noise is tolerable; implicit
  rejection of every ciphertext that no message encapsulates to.
- **Sealed containers**: the two-segment authenticated image is RFC 8452 encryption; what import accepts is what export
  makes.
- **Management unit**: 32 lockers over a finite capacity; open operations, clone, rename and swap; rights only narrow.
- **EdDSA locker**: the two-pass message protocol against one-shot signing (RFC 8032); verification accepts exactly what
  signing computes; key agreement.
- **ECDSA and SM2** (FIPS 186-5, GM/T 0003.2): verification accepts exactly what signing with some nonce returns, over any
  group of prime order.

Each Machine is given twice: as a transition function on values (`Step`, in the `*Machine` modules), about which the run
theorems are proved with a history kept beside the locker, and as a class (in the `*Locker` modules and `KleUnit`) that
changes its fields in place, whose methods are proved to make exactly those transitions. The `*Gates` modules and
`KleGuards` state what no instruction can get around: rights, announced pieces, the end of a message. The loops of the
arithmetic are methods on arrays. Block ciphers, compression functions, permutations and XOFs are function parameters, so
every theorem holds for all of them.

## Findings

Three promises fail for some inputs.

That an imported locker behaves as the exported one:

- For GCM, GCM_IV and GCM-SIV it fails exactly when an interrupted Encrypt or Decrypt left output pending. The original
  hands that output out again at the next instruction that fails before a transfer starts; the copy hands out zero
  (`GcmSerial.ImportBehavesIff`, `SivSerial.ImportBehavesIff`). The input is `GcmSerial.PendingOutputReached`: a 96-bit IV,
  then two blocks to encrypt, interrupted after the first.
- For OCB it fails in that case and also exactly in Set_Aux_Value before the nonce is read. The image has no place for
  whether the nonce was read, and the copy starts a message without one (`OcbSerial.ImportBehavesIff`). The input is
  `OcbSerial.UnreadNonceReached`: Set_Aux_Value entered from Ready.
- For CMAC it always holds, because absorbing hands out zero (`CmacRuns.ImportBehaves`).

That an import becomes Valid only with its tag: it fails when another operation is nested in the import, which
src/kat/mgmt_model.py:324-329 admits in every Configuration State. An export opened there and completed leaves a Valid
State, and the tag is not looked at (`KleGuards.NestedExportCompletes`). `KleGuards.ImportsAreAuthentic` shows that nothing
else does it.

That a locker in use can be exported and imported again: a restriction may name the reserved Locality entry, clear a policy
that its machine demands, or name an entry that is not configured, and the check of an import then refuses the metadata
(`KleMetadata.RestrictedAway`). It passes in every other case (`KleMetadata.ValidIsImportable`).

Other results are exact conditions rather than one-way promises: ML-KEM decryption succeeds if and only if the noise is
tolerable, which reaches to 832 for a zero bit and for the lower side, but only to 831 for the upper side of a one
(`MlkemCorrectness.DecryptsIff`, `MlkemCodec.BitSurvives`); byte_encode undoes byte_decode if and only if no group is q or
more (`MlkemCodec.EncodeDecode`); the second EdDSA pass is accepted if and only if its message gives the same nonce scalar,
not only if it is the same message (`EddsaRuns.SecondPassAccepted`); and freed content stays unseen with zero_alloc but not
without it (`KleCorrect.FreedContentUnseen`, `KleCorrect.FreedContentSeen`).

## Model

| member | source | states |
|---|---|---|
| `MldsaCorrectness.SignedIsVerified` | src/kat/mldsa_model.py:369-475 | for every parameter set, seed, message representative, rnd and choice of hash outputs: whatever signature the signing loop returns for a generated key pair, verification with its public key and the same mu accepts; what verification refuses is the next row |
| `MldsaVerify.VerifyIff` | src/kat/mldsa_model.py:453-475 | verification accepts if and only if key and signature are encodings of rho, t1, c~, z and a hint vector, every centred coefficient of z is below gamma1 - beta, and c~ is the hash of mu and of the encoded high bits that the hints give of the ring value A z - c t1 2^13 |
| `MldsaVerify.TwoMessagesCollide` | src/kat/mldsa_model.py:453-475 | a signature accepted for two message representatives under one key is a collision: both hash with the same encoded high bits to its challenge |
| `MldsaVerify.VerifyRowIsRing` | src/kat/mldsa_model.py:453-475 | the row that verification computes through transforms is A z - c t1 2^13 by negacyclic multiplication of coefficients, modulo q |
| `MldsaVerify.PkIsEncoding` | src/kat/mldsa_model.py:290-298 | every byte string of the length of a public key is the encoding of its seed and t1 |
| `MldsaVerify.SigIsEncoding` | src/kat/mldsa_model.py:341-360 | every byte string that decodes as a signature is the encoding of the parts it decodes to |
| `MldsaVerify.W1EncodeInjective` | src/kat/mldsa_model.py:337-340 | the encoding of the high bits that is hashed determines them |
| `MldsaVerify.SignIsFirstAccepted` | src/kat/mldsa_model.py:398-432 | the signature is the candidate of the first iteration that is not rejected, iteration t starting its masks at counter l t |
| `MldsaVerify.MaskSeedsDistinct` | src/kat/mldsa_model.py:169-176 | no two masks of one signature are drawn from the same seed while the counter fits its two bytes |
| `MldsaCorrectness.PublicFromSecret` | src/kat/mldsa_model.py:388-397 | a generated secret key passes its range check, contains the hash of its public key, and pk_from_sk derives exactly that public key from it |
| `MldsaCorrectness.SignatureShape` | src/kat/mldsa_model.py:398-432 | a returned signature has the length of its parameter set and took between 1 and the loop limit of iterations |
| `Mldsa.SignLoop` | src/kat/mldsa_model.py:398-432 | the loop over kappa returns what signing by recursion over the iterations gives: the first candidate that passes all four checks, or none at the limit |
| `MldsaNtt.NttInPlace` | src/kat/mldsa_model.py:84-97 | the in-place loop over layers leaves, for any 256 integers, the values at the odd powers of zeta in bit-reversed order, reduced modulo q (`Ntt`, defined by evaluation) |
| `MldsaNtt.InttInPlace` | src/kat/mldsa_model.py:99-112 | the in-place inverse loop returns the transform `Intt` that the next two rows prove to be the two-sided inverse of evaluation |
| `MldsaNtt.InttNtt` | src/kat/mldsa_model.py:84-112 | the inverse transform of the transform of any 256 integers is those integers modulo q |
| `MldsaNtt.NttIntt` | src/kat/mldsa_model.py:84-112 | the transform of the inverse transform of any 256 integers is those integers modulo q |
| `MldsaNtt.TransformedProduct` | src/kat/mldsa_model.py:84-116 | multiplying transforms point by point is multiplication modulo x^256 + 1 and q, for all polynomials |
| `MldsaRounding.Power2RoundReconstructs` | src/kat/mldsa_model.py:199-204 | the two parts give r modulo q back, the high one in 10 bits and the low one in (-2^12, 2^12] |
| `MldsaRounding.DecomposeReconstructs` | src/kat/mldsa_model.py:205-213 | r1 times 2 gamma2 plus r0 is r modulo q with r0 in the low range, including the case where r - r0 = q - 1 |
| `MldsaRounding.DecomposeUnique` | src/kat/mldsa_model.py:205-213 | any decomposition with a low part in that range is the one computed |
| `MldsaRounding.HintRecovers` | src/kat/mldsa_model.py:214-227 | use_hint of make_hint(z, r) on r is high_bits(r + z) for every r and every z whose centred size is at most gamma2 |
| `MldsaHints.HintBitPack` | src/kat/mldsa_model.py:258-269 | the loop that writes positions and end marks into a zeroed byte array produces the packing `Packed` of the hint vector |
| `MldsaHints.HintUnpack` | src/kat/mldsa_model.py:271-288 | the loop accepts exactly the strings that `Unpacked` accepts and returns the same hint vector |
| `MldsaHints.UnpackPacked` | src/kat/mldsa_model.py:258-288 | unpacking the packing of any 0/1 hint vector with at most omega ones gives the vector back |
| `MldsaHints.PackUnpacked` | src/kat/mldsa_model.py:258-288 | every byte string that unpacks is the packing of its result, which is a hint vector: packings are unique |
| `Digits.UnpackPack` | src/kat/mldsa_model.py:235-256 | reading b-bit fields back from a packing that fills whole bytes gives the values that were packed |
| `Digits.PackUnpack` | src/kat/mldsa_model.py:235-256 | packing the b-bit fields read from bytes that hold a whole number of them gives the bytes |
| `MldsaCodec.PkRoundTrip` | src/kat/mldsa_model.py:290-298 | a public key has its announced length and decodes to the seed and t1 it was made from |
| `MldsaCodec.SkRoundTrip` | src/kat/mldsa_model.py:299-336 | a secret key has its announced length, passes the range check and decodes to every part it was made from |
| `MldsaCodec.SigRoundTrip` | src/kat/mldsa_model.py:341-360 | a signature has its announced length and decodes to the challenge, z and the hints it was made from |
| `MldsaSampling.Xof.Read` | src/kat/mldsa_model.py:59-71 | a read returns the next n bytes of the stream and advances, or refuses and changes nothing when it would pass the limit |
| `MldsaSampling.RejNttPoly` | src/kat/mldsa_model.py:130-140 | the rejection loop over an XOF returns the first 256 three-byte values below q, or none at the limit |
| `MldsaSampling.RejBoundedPoly` | src/kat/mldsa_model.py:141-158 | the rejection loop returns the first 256 admitted half-byte values, or none at the limit |
| `MldsaSampling.SampleInBallInPlace` | src/kat/mldsa_model.py:178-192 | the in-place shuffle from index 256 - tau on computes the challenge polynomial `SampleInBall` |
| `MldsaSampling.BallWeight` | src/kat/mldsa_model.py:178-192 | whatever the XOF puts out, a sampled challenge has coefficients in {-1, 0, 1} and exactly tau that are not zero |
| `MldsaMachine.KeysBelongTogether` | src/kat/mldsa_locker.py:101-228 | over every run from a provisioned locker, a private key present passes its range check, a public key next to it is the one it determines, an inert locker holds nothing, and rnd is kept only while a signature is interrupted |
| `MldsaMachine.StepKeepsInv` | src/kat/mldsa_locker.py:101-228 | every setst, exec and restriction keeps the invariant that this rests on |
| `MldsaMachine.SeriesProgress` | src/kat/mldsa_locker.py:202-228 | while the iterations done do not suffice, any series of halts leaves the locker with the rnd first fixed, whatever is drawn later, and with the sum of the halts as progress |
| `MldsaMachine.SeriesCompletes` | src/kat/mldsa_locker.py:202-228 | the instruction that completes an interrupted series leaves the locker as one uninterrupted instruction with the first draw would have |
| `MldsaMachine.SeriesEnds` | src/kat/mldsa_locker.py:202-228 | a series of positive halts that has not completed is no longer than the loop limit |
| `MldsaMachine.CompletedIsVerified` | src/kat/mldsa_locker.py:202-228 | a completed Sign_Generate with a generated key pair ends in Output or Failure, and in Output the signature verifies |
| `MldsaMachine.ReimportRestores` | src/kat/mldsa_locker.py:231-247 | after any run, export then import gives the locker back; without the optional content only an interrupted signature is lost |
| `MldsaTransfers.LoadsConcatenate` | src/kat/mldsa_locker.py:153-171 | however the bytes are cut into pieces, what is loaded is their concatenation, and nothing else changes until the load is complete |
| `MldsaTransfers.LoadCompletes` | src/kat/mldsa_locker.py:153-171 | a completed load leaves the loaded bytes in their field: a private key that fails its range check clears the locker, everything else is marked as present |
| `MldsaTransfers.LoadExceeds` | src/kat/mldsa_locker.py:153-171 | bytes in excess of a public key or of a signature end in Failure and leave zeros in the field; in the other fields they are ignored |
| `MldsaTransfers.SignsAtOnce` | src/kat/mldsa_locker.py:135-228 | Sign_Generate entered and carried out at once needs the right, a private key and mu, and leaves the signature for the random value drawn, or for zeros in the deterministic variant; or Failure where signing gives none |
| `MldsaTransfers.ReadsConcatenate` | src/kat/mldsa_locker.py:172-176 | whatever the sizes of the reads, what they hand out put together is the field from where it stood, and Success is entered with the last byte |
| `MldsaTransfers.LockerDecides` | src/kat/mldsa_locker.py:193-195 | verification in the locker ends in Success exactly when the loaded key, mu and signature satisfy `MldsaVerify.VerifyIff`, and in Failure otherwise |
| `MldsaTransfers.PolicyNarrows` | src/kat/mldsa_locker.py:101-229 | no instruction adds a bit to the policy |
| `MldsaTransfers.NoSigning` | src/kat/mldsa_locker.py:101-201 | without the right to sign no instruction leads to Sign_Generate or to reading a signature, and an exec there clears the locker |
| `MldsaTransfers.NoVerifying` | src/kat/mldsa_locker.py:101-201 | without the right to verify no instruction leads to Sig_Verify or to loading a signature, and an exec there clears the locker |
| `MldsaLocker.Locker.SetSt` | src/kat/mldsa_locker.py:101-144 | the object, whose fields are changed in place, makes exactly the transition of the machine |
| `MldsaLocker.Locker.Exec` | src/kat/mldsa_locker.py:145-228 | the object makes exactly the step of the machine and hands out the same bytes, for every State |
| `MldsaLocker.Locker.Restrict` | src/kat/mldsa_locker.py:229-229 | only the policy changes, to its conjunction with the mask |
| `Gf128.GhashMulAgrees` | src/kat/common.py:270-285 | the multiplication on little-endian values (carry-less product, then reduction) is the shift-and-reduce one of the reference after swapping bytes, for all blocks |
| `Gf128.MontmulAgrees` | src/kat/common.py:286-291 | Montgomery multiplication by h is the reference multiplication by h times 1/x on the same bits |
| `Gf128.AbsorbIsGhash` | src/kat/common.py:283-285 | folding the Machines' multiplication over any block sequence is GHASH |
| `Gf128.PolyvalAgrees` | src/kat/common.py:286-295 | POLYVAL by Montgomery multiplication is the reference POLYVAL through GHASH, for every start, key and block sequence |
| `BlockNumbers.DoubleOnNumbers` | src/kat/common.py:317-321 | the big-endian number of a doubled block is twice the number when that is below 2^128, and otherwise twice the number less 2^128 with the bits of 0x87 flipped |
| `BlockNumbers.DoubleIsReference` | src/kat/aead_ref.py:101-104 | the doubling of the Machines is the reference's doubling of the big-endian integer, for every block |
| `BlockNumbers.MulXNumber` | src/kat/common.py:317-321 | multiplication by x of a block is doubling of its number modulo 2^128, with 0x87 for the carry |
| `BlockNumbers.PadIsReference` | src/kat/aead_ref.py:161-161 | padding a last piece of whole bytes by bit fields is appending the byte 0x80 and zero bytes |
| `Gf128.ClmulLoop` | src/kat/common.py:270-275 | the shift-and-add loop computes the carry-less product |
| `Gf128.PolyModLoop` | src/kat/common.py:276-280 | cancelling from the top bit down computes the remainder modulo the field polynomial |
| `Gf128.GmulLoop` | src/kat/aead_ref.py:13-19 | the reference loop computes the product `Gmul` |
| `Gf128.MontmulLoop` | src/kat/common.py:286-291 | the product followed by 128 divisions by x is `Montmul` |
| `Gf128.PolyvalLoop` | src/kat/common.py:292-295 | the loop returns both the Montgomery and the GHASH form of POLYVAL of the blocks |
| `Transfers.TransferKeeps` | src/kat/aead_model.py:104-118 | whatever every block keeps of a Machine and of the blocks in and out, a transfer keeps, whether it ends, halts or fails; its output is the old output followed by those blocks |
| `Transfers.TransferResumes` | src/kat/aead_model.py:104-118 | halting and resuming a transfer ends as the uninterrupted one does, and its output is the two outputs put together |
| `BitFields.CutFields` | src/kat/aead_model.py:120-131 | fields of the given widths are read back as they were packed, and fill the image |
| `BitFields.FieldsCut` | src/kat/aead_model.py:120-131 | packing the fields read from a whole image gives the image |
| `GcmRuns.EncryptionIsGcm` | src/kat/aead_model.py:144-248 | after any run (any split into transfers, halts, resumptions, restarts, any IV), the text handed out is the reference ciphertext of the text fed in, and Enc_Tag_Final hands out the truncated reference tag or refuses |
| `GcmRuns.DecryptionIsGcm` | src/kat/aead_model.py:144-248 | after any run, the text handed out is the reference plaintext, and Verify ends in Success exactly for the truncated reference tag |
| `GcmRuns.MessageComesBack` | src/kat/aead_model.py:144-271 | a message encrypted by one run and decrypted by another under the same key, IV and associated data comes back, and the tag handed out brings the second locker to Success |
| `GcmRuns.OutputIsCtrMode` | src/kat/aead_model.py:168-214 | in every reachable message State, what was handed out so far is counter mode from the reference J0 over what was fed in so far |
| `GcmReference.DecryptEncrypt` | src/kat/aead_ref.py:35-54 | decrypting what gcm_core encrypted gives the plaintext and the same tag |
| `GcmCorrect.StepKeepsInv` | src/kat/aead_model.py:153-248 | every instruction keeps the invariant that ties tag, counter, lengths and hash key to the history of the message |
| `GcmCorrect.FinalizeJ0` | src/kat/aead_model.py:218-246 | for an IV read in pieces of any length, the J0 formed at the end is that of the reference, the 96-bit case included |
| `GcmCorrect.CounterAdmits` | src/kat/aead_model.py:168-171 | from any start of the 32-bit counter, wrap-around included, exactly 2^32 - 2 blocks are admitted |
| `GcmCorrect.CountersDistinct` | src/kat/aead_model.py:168-171 | the counter blocks of one message, the block that masks the tag among them, are pairwise distinct |
| `GcmCorrect.IncIsSucc` | src/kat/aead_ref.py:33-33 | the reference increments the last four bytes as a big-endian number modulo 2^32, which is the counter step of the Machine |
| `GcmHalts.ResumedIsUninterrupted` | src/kat/aead_model.py:104-118 | a halted exec is accepted where it stopped, and resuming it leaves the locker, and in all the output, of the uninterrupted one; for transfers and for the reading of an IV |
| `GcmHalts.TransferAdmitted` | src/kat/aead_model.py:104-118 | a well-formed transfer fails exactly when it would exceed 2^32 - 2 blocks under one IV |
| `GcmGates.RightsOverRuns` | src/kat/aead_model.py:65-118 | over every run, a right that MachinePolicy lacks at the start is never gained, and no State that needs it is reached |
| `GcmGates.StepGuarded` | src/kat/aead_model.py:65-98 | no instruction gains a right; without one no State that needs it is entered and an exec in such a State ends in Invalid without working; a message that has ended is left for Ready only, and Invalid never |
| `GcmGates.FinalPieceNotSkipped` | src/kat/aead_model.py:183-185 | a final piece that was announced can only be processed or given up for Ready or Invalid: the tag is not reached without it |
| `GcmGates.IvNotSkipped` | src/kat/aead_model.py:172-185 | an announced IV has 8 to 8192 bits in whole bytes, and only the exec that completes it leads on |
| `GcmGates.WindowConsumed` | src/kat/aead_model.py:104-118 | a transfer that does not fail takes in exactly its window of the input, from klstart to its end or to the reported interruption, and hands out as many blocks |
| `GcmGates.IvConsumed` | src/kat/aead_model.py:218-235 | reading an IV takes in its window from klstart on, up to the last announced bit or the reported interruption |
| `GcmGates.OnlyVerifyDecides` | src/kat/aead_model.py:206-215 | Failure comes from the comparison in Verify only, Success from there or from handing out the tag |
| `GcmGates.TagLengthHolds` | src/kat/aead_model.py:156-182 | over every run a locker that is not Invalid has one of the six tag lengths, and Verify compares that many bits |
| `GcmSerial.ImportExport` | src/kat/aead_model.py:250-271 | importing what a reachable locker exported restores every field except the halt position, the pending output and a J0 that is not formed yet |
| `GcmSerial.ImportBehavesIff` | src/kat/aead_model.py:250-271 | the imported locker gives the same outputs and States under every later run if and only if the original has no output pending |
| `GcmSerial.PendingOutputReached` | src/kat/aead_model.py:104-118 | the exception is reached: a locker in Encrypt with output pending, by four instructions |
| `GcmLocker.Locker.constructor` | src/kat/aead_model.py:153-166 | a provisioned object is the created machine; a truncated tag length that is not admitted leaves it Invalid |
| `GcmLocker.Locker.SetSt` | src/kat/aead_model.py:69-84 | the object makes exactly the transition of the GCM or GCM_IV machine |
| `GcmLocker.Locker.Exec` | src/kat/aead_model.py:86-118 | the object makes exactly the step of the machine, block by block, and hands out the same value, also when it fails after part of a transfer |
| `SivRuns.EncryptionIsSiv` | src/kat/aead_model.py:290-348 | after any run that absorbed A, P and their lengths and encrypted P, text and tag handed out are those of RFC 8452 encryption (`Rfc8452.Seal`) under the key and nonce |
| `SivRuns.DecryptionIsSiv` | src/kat/aead_model.py:290-348 | after any run that decided, the text handed out is that of RFC 8452 decryption (`Rfc8452.Unseal`), and Success is its verdict on the tag |
| `SivRuns.MessageComesBack` | src/kat/aead_model.py:290-348 | a message encrypted by one run and decrypted by another with the same key, nonce and tag comes back and ends in Success |
| `SivRuns.BlockAdmitted` | src/kat/aead_model.py:320-324 | a block of text is admitted exactly while fewer than 2^32 have been processed |
| `SivRuns.StepKeepsInv` | src/kat/aead_model.py:290-348 | every instruction keeps the invariant that ties hash, counter and synthetic IV to the history of the message |
| `Rfc8452.UnsealSeal` | src/kat/aead_ref.py:68-98 | decrypting what RFC 8452 encryption gives, in the form of GCM-SIV or of a sealed container, yields the plaintext and accepts the tag |
| `Rfc8452.CountersDistinct` | src/kat/aead_ref.py:79-87 | the counter blocks of one message are pairwise distinct below 2^32 blocks, for every tag |
| `Rfc8452.CounterIsNoTag` | src/kat/aead_ref.py:73-87 | no counter block is ever encrypted as the input of a tag: their top bits differ |
| `Rfc8452.NonceEntersTag` | src/kat/aead_ref.py:73-78 | two nonces with the same hash give different inputs of the tag |
| `Rfc8452.SegmentsDiffer` | src/kat/scc_core.py:30-49 | the counter blocks of the two segments of a sealed container differ, whatever their synthetic IVs |
| `SivRuns.KeysAreReference` | src/kat/aead_model.py:304-308 | the message keys that the Machine derives are those of RFC 8452, for every key length and nonce |
| `SivRuns.TagIsReference` | src/kat/aead_model.py:317-319 | the tag that the Machine forms from hash and nonce is that of RFC 8452 |
| `SivRuns.CounterIsReference` | src/kat/aead_model.py:320-324 | the i-th counter block of the Machine is that of RFC 8452 |
| `SivGates.RightsOverRuns` | src/kat/aead_model.py:65-118 | over every run, a right that MachinePolicy lacks at the start is never gained, and no State that needs it is reached |
| `SivGates.WindowConsumed` | src/kat/aead_model.py:104-118 | a transfer that does not fail takes in exactly its window of the input, from klstart to its end or to the reported interruption |
| `SivGates.StepGuarded` | src/kat/aead_model.py:65-98 | no instruction gains a right; without one no State that needs it is entered and an exec in such a State ends in Invalid without working; a message that has ended is left for Ready only, and Invalid never |
| `SivGates.TagComesFirst` | src/kat/aead_model.py:325-332 | encryption of the text starts only where the tag over all of it has been made, and with that tag as synthetic IV |
| `SivGates.FinalPieceNotSkipped` | src/kat/aead_model.py:315-341 | a final piece that was announced is processed, or the message is given up |
| `SivGates.OnlyTheTagDecides` | src/kat/aead_model.py:342-347 | Success and Failure come from the comparison of the tags only, and say how it came out |
| `SivSerial.ImportExport` | src/kat/aead_model.py:349-360 | importing what a reachable locker exported restores all but the halt position and the pending output: the counter that is used up and the derived keys too |
| `SivSerial.ImportBehavesIff` | src/kat/aead_model.py:349-360 | the imported locker behaves as the original under every later run if and only if no output is pending |
| `SivLocker.Locker.SetSt` | src/kat/aead_model.py:69-84 | the object makes exactly the transition of the GCM-SIV machine |
| `SivLocker.Locker.DeriveKeys` | src/kat/aead_model.py:304-308 | the loop over the derived half blocks leaves the message keys of the reference |
| `SivLocker.Locker.Exec` | src/kat/aead_model.py:325-348 | the object makes exactly the step of the machine and hands out the same value |
| `OcbRuns.EncryptionIsOcb` | src/kat/aead_model.py:363-466 | after any run, the text handed out is the reference ciphertext of the text fed in, and Enc_Tag_Final hands out the truncated reference tag or refuses; the reference doubles and pads on integers of its own (`BlockNumbers.DoubleIsReference`, `BlockNumbers.PadIsReference`) |
| `OcbRuns.DecryptionIsOcb` | src/kat/aead_model.py:363-466 | after any run, the text handed out is the reference plaintext, and Verify ends in Success exactly for the truncated reference tag, with the doubling and padding of the reference |
| `OcbRuns.MessageComesBack` | src/kat/aead_model.py:363-466 | a message encrypted by one run and decrypted by another comes back, and the tag handed out brings the second locker to Success |
| `OcbRuns.BlockAdmitted` | src/kat/aead_model.py:423-446 | a block is admitted exactly while fewer than 2^48 of its kind have been processed |
| `OcbRuns.ResumedIsUninterrupted` | src/kat/aead_model.py:104-118 | interrupting a transfer and resuming it where it stopped leaves the locker and the assembled output of the uninterrupted one |
| `OcbMachine.LookupInTable` | src/kat/aead_model.py:423-446 | no look-up by trailing zeros leaves the 49 entries while the index is at most 2^48 |
| `OcbReference.DecryptEncrypt` | src/kat/aead_ref.py:108-169 | decrypting what OCB.crypt encrypted gives the plaintext and the same tag |
| `OcbCorrect.StepKeepsInv` | src/kat/aead_model.py:363-466 | every instruction keeps the invariant that ties offset, sums and output to the loops of the reference |
| `OcbCorrect.StartIsInitial` | src/kat/aead_model.py:408-415 | the starting offset from bit fields is that of the reference from integers, for every nonce of at most 120 bits and tag length |
| `OcbCorrect.SetupTable` | src/kat/aead_model.py:395-397 | the doubled values computed entry by entry are those that the reference doubles as integers |
| `OcbCorrect.PadBitsIgnored` | src/kat/aead_model.py:417-422 | the pad bits of the last nonce byte make no difference |
| `OcbReference.NtzDivides` | src/kat/aead_ref.py:106-106 | the number of trailing zeros is the largest power of two that divides the index |
| `OcbCorrect.NonceIsNumber` | src/kat/aead_model.py:365-367 | the nonce bits read from bit fields are the big-endian integer of the nonce bytes without their pad bits |
| `OcbGates.RightsOverRuns` | src/kat/aead_model.py:65-118 | over every run, a right that MachinePolicy lacks at the start is never gained, and no State that needs it is reached |
| `OcbGates.WindowConsumed` | src/kat/aead_model.py:104-118 | a transfer that does not fail takes in exactly its window of the input, from klstart to its end or to the reported interruption |
| `OcbGates.StepGuarded` | src/kat/aead_model.py:65-98 | no instruction gains a right; without one no State that needs it is entered and an exec in such a State ends in Invalid without working; a message that has ended is left for Ready only, and Invalid never |
| `OcbGates.MessageStarts` | src/kat/aead_model.py:398-406 | a message starts only with a nonce that was loaded or preset, and with one of three tag lengths, which it keeps to its end |
| `OcbGates.LastAadNotSkipped` | src/kat/aead_model.py:371-372 | associated data that was announced is processed, or the message is given up |
| `OcbGates.FinalPieceNotSkipped` | src/kat/aead_model.py:398-412 | a final piece that was announced is processed, or the message is given up |
| `OcbSerial.ImportExport` | src/kat/aead_model.py:467-480 | what import makes of an exported locker: the nonce counts as read if it has a length, and the table is computed again within a message |
| `OcbSerial.ImportBehavesIff` | src/kat/aead_model.py:467-480 | the imported locker behaves as the original under every later run if and only if no output is pending and no nonce is still to be read |
| `OcbSerial.UnreadNonceReached` | src/kat/aead_model.py:467-480 | the exception is reached by entering Set_Aux_Value |
| `OcbLocker.Locker.constructor` | src/kat/aead_model.py:378-394 | a provisioned object is the created machine, with the pad bits of a preset nonce cleared |
| `OcbLocker.Locker.FillTable` | src/kat/aead_model.py:395-397 | the loop leaves the 49 doubled values in the table, which are those of the reference (`OcbCorrect.SetupTable`) |
| `OcbLocker.Locker.SetSt` | src/kat/aead_model.py:69-84 | the object makes exactly the transition of the OCB or OCB_NONCE machine |
| `OcbLocker.Locker.Exec` | src/kat/aead_model.py:416-466 | the object makes exactly the step of the machine and hands out the same value |
| `CmacRuns.TagIsCmac` | src/kat/aead_model.py:500-547 | after any run, an admitted exec in Hash_Output hands out the truncated CMAC of the message absorbed, and one in Verify succeeds exactly for it; the subkeys of the definition are doubled as integers |
| `CmacRuns.StepKeepsInv` | src/kat/aead_model.py:500-547 | every instruction keeps the invariant that ties the chaining value to the message, and the output pending to zero |
| `CmacGates.TagsAreComplete` | src/kat/aead_model.py:517-547 | over every run, a tag is handed out or compared only when the last block is in, and compared at the full length of the locker, an admitted one |
| `CmacGates.RunGuarded` | src/kat/aead_model.py:65-118 | over every run, that is kept, and a right that MachinePolicy lacks is never gained or used |
| `CmacGates.WindowConsumed` | src/kat/aead_model.py:104-118 | a transfer that does not fail takes in exactly its window of the input, from klstart to its end or to the reported interruption |
| `CmacGates.StepGuarded` | src/kat/aead_model.py:65-98 | no instruction gains a right; without one no State that needs it is entered and an exec in such a State ends in Invalid without working; a message that has ended is left for Ready only, and Invalid never |
| `CmacRuns.ImportExport` | src/kat/aead_model.py:552-563 | importing what a reachable locker exported restores all but the halt position and the pending output |
| `CmacRuns.ImportBehaves` | src/kat/aead_model.py:552-563 | the imported locker behaves as the original under every later run |
| `CmacLocker.Locker.constructor` | src/kat/aead_model.py:506-512 | a provisioned object is the created machine |
| `CmacLocker.Locker.SetSt` | src/kat/aead_model.py:69-84 | the object makes exactly the transition of the CMAC machine |
| `CmacLocker.Locker.Exec` | src/kat/aead_model.py:528-547 | the object makes exactly the step of the machine and hands out the same value |
| `HashRuns.ReadsOneStream` | src/kat/hash_model.py:239-261 | after any run (any chunks, halts and last piece), an admitted read hands out the next bits of the reference output for the message absorbed; Success is entered exactly when a bounded output is used up, and otherwise out_len plus what was read is conserved |
| `HashRuns.HaltedReadAccepted` | src/kat/hash_model.py:239-261 | the position that a halted read reports is accepted by the exec that resumes there, which does not fail and hands out more |
| `HashRuns.AbsorbResumes` | src/kat/hash_model.py:88-102 | the position that halted absorbing reports is accepted, and the two execs leave the locker of the uninterrupted one |
| `HashRuns.VerifiesHmac` | src/kat/hash_model.py:190-238 | verification of an HMAC ends in Success exactly for the truncated HMAC of the message absorbed, in Failure otherwise, and in Invalid for a tag that is too short |
| `HashRuns.StepKeepsInv` | src/kat/hash_model.py:128-261 | every instruction keeps the invariant that ties chaining value, block, counter and output position to message and stream |
| `HashCorrect.VliHolds` | src/kat/hash_model.py:88-102 | the absorbing loop, with its hold-back of the last block, takes in exactly the bits it passes, counts them, and stops early only at a position it can resume |
| `HashCorrect.AbsorbFeeds` | src/kat/hash_model.py:198-238 | a transfer in Absorb appends exactly the bytes it moved to the message |
| `HashCorrect.LastFeeds` | src/kat/hash_model.py:198-238 | the final piece, of any admitted number of bits, ends the message |
| `HashCorrect.FinalMdHash` | src/kat/hash_model.py:105-125 | padding and finalizing a partly filled block gives the reference hash of the padded message, for SHA-2 and SM3 |
| `HashCorrect.FinalSpongeHash` | src/kat/hash_model.py:105-125 | padding and finalizing gives the reference sponge state, for SHA-3 and SHAKE, at every bit length |
| `HashCorrect.FinalBlakeHash` | src/kat/hash_model.py:105-125 | finalizing a held-back block gives the reference BLAKE2 state, keyed or not, the empty message included |
| `HashCorrect.PlainFinal` | src/kat/hash_model.py:105-125 | finalizing an unkeyed message gives its reference hash, and fails exactly for the keyed BLAKE2 case without key and message |
| `HashCorrect.HmacFinal` | src/kat/hash_model.py:190-197 | the outer hash over the inner digest is the reference HMAC |
| `HashCorrect.PadNumbers` | src/kat/hash_ref.py:192-196 | the two key pads of the Machine are the bytes 0x36 and 0x5c |
| `HashCorrect.PadIsXorEach` | src/kat/hash_ref.py:192-196 | adding a pad to the key block is the reference's exclusive or of every byte |
| `HashGates.ReadIsComplete` | src/kat/hash_model.py:239-261 | a read that is not halted hands out everything up to the end of its window, of the output, or of the bits asked for |
| `HashGates.AbsorbIsComplete` | src/kat/hash_model.py:88-102 | an admitted transfer in Absorb takes in all of its window, or up to the reported interruption |
| `HashGates.OutputEntered` | src/kat/hash_model.py:168-184 | Hash_Output is entered only with a complete message, with the right to read where there is a key, and with an output as long as the digest, as asked for, or unbounded for an XOF |
| `HashGates.VerifyEntered` | src/kat/hash_model.py:168-184 | Verify is entered only for HMAC, with a complete message, the right to verify, and the tag length of the locker |
| `HashGates.RightsOverRuns` | src/kat/hash_model.py:128-262 | over every run, a right that the policy lacks at the start is never gained, and no State that needs it is reached |
| `HashGates.StepGuarded` | src/kat/hash_model.py:122-208 | no instruction gains a right; without the right to read, a locker with a key is not brought to an output State and an HMAC hands out nothing in one; without the right to verify nothing is compared; a message that has ended is left for Ready only, and Invalid never |
| `HashGates.LengthsHold` | src/kat/hash_model.py:140-154 | over every run the digest and key lengths of BLAKE2 stay in their ranges |
| `HashGates.FinalPieceNotSkipped` | src/kat/hash_model.py:164-184 | a final piece that was announced is absorbed, or the message is given up |
| `HashLocker.Locker.SetSt` | src/kat/hash_model.py:128-184 | the object makes exactly the transition of the machine |
| `HashLocker.Locker.Exec` | src/kat/hash_model.py:198-261 | the object makes exactly the step of the machine, and hands out the same bits and halt position |
| `MlkemCorrectness.DecapsReturnsKey` | src/kat/mlkem_model.py:125-139 | decapsulating an encapsulation for a generated key returns the same key whenever the decryption noise is tolerable for the message; what other ciphertexts get is `MlkemCorrectness.ImplicitRejection` |
| `MlkemCorrectness.DecapsReturnsKeyIff` | src/kat/mlkem_model.py:125-139 | where no other message and no rejected ciphertext hashes to the key, decapsulation of an encapsulation returns its key if and only if the noise is tolerable; what other ciphertexts get is `MlkemCorrectness.ImplicitRejection` |
| `MlkemCorrectness.ImplicitRejection` | src/kat/mlkem_model.py:131-139 | for a generated key and any ciphertext of the right length: if no message encapsulates to it, decapsulation gives J(z + c); and if decapsulation gives a key other than J(z + c), some message encapsulates to that key and that ciphertext |
| `MlkemCorrectness.CheckedKeyRejects` | src/kat/mlkem_model.py:131-139 | the same for every decapsulation key that passes its check, generated or not, with the encapsulation key that it contains |
| `MlkemCorrectness.DecryptsIff` | src/kat/mlkem_model.py:92-124 | for every key and randomness, decryption returns the message if and only if every coefficient of the noise, compression error included, is tolerable |
| `MlkemCorrectness.SmallIsTolerable` | src/kat/mlkem_model.py:116-124 | noise of at most 831 in absolute value is tolerable for every message |
| `MlkemCorrectness.MessageRecovered` | src/kat/mlkem_model.py:116-124 | reading the message off message polynomial plus noise gives it exactly when the noise is tolerable |
| `MlkemCorrectness.OpenedIsNoisyMessage` | src/kat/mlkem_model.py:92-124 | what decryption computes, through transforms and compressed ciphertext, is the message polynomial plus the noise polynomial |
| `MlkemCorrectness.KeysPassChecks` | src/kat/mlkem_model.py:140-148 | generated keys pass the input checks of encapsulation and decapsulation |
| `MlkemCorrectness.EkCheckIff` | src/kat/mlkem_model.py:140-144 | the check on an encapsulation key passes exactly for encodings of k polynomials with coefficients below q followed by a seed of 32 bytes |
| `MlkemNtt.NttLoop` | src/kat/mlkem_model.py:50-59 | the in-place loop leaves the residues modulo the 128 quadratics (`Ntt`) |
| `MlkemNtt.NttInvLoop` | src/kat/mlkem_model.py:60-70 | the in-place inverse loop returns the transform that the next two rows prove to be the inverse |
| `MlkemNtt.InverseOfTransform` | src/kat/mlkem_model.py:50-70 | the inverse transform of the transform of any 256 integers is those integers modulo q |
| `MlkemNtt.TransformOfInverse` | src/kat/mlkem_model.py:50-70 | the transform of the inverse transform of any 256 integers is those integers modulo q |
| `MlkemNtt.MulNttLoop` | src/kat/mlkem_model.py:71-78 | the loop over pairs multiplies residues modulo the 128 quadratics |
| `MlkemNtt.NttProduct` | src/kat/mlkem_model.py:50-78 | the transform of a product modulo x^256 + 1 is the pairwise product of the transforms |
| `MlkemNtt.TransformedProduct` | src/kat/mlkem_model.py:50-78 | multiplying transforms multiplies polynomials modulo x^256 + 1 and q |
| `MlkemCodec.DecodeEncode` | src/kat/mlkem_model.py:22-30 | byte_decode undoes byte_encode for every width up to 12 |
| `MlkemCodec.EncodeDecode` | src/kat/mlkem_model.py:22-30 | byte_encode undoes byte_decode on a string if and only if none of its 12-bit groups is q or more |
| `MlkemCodec.CompressionError` | src/kat/mlkem_model.py:31-32 | decompressing what was compressed is off by at most the rounding bound |
| `MlkemCodec.CompressDecompress` | src/kat/mlkem_model.py:31-32 | compressing what was decompressed gives the value back |
| `MlkemCodec.BitSurvives` | src/kat/mlkem_model.py:31-32 | a message bit is read back if and only if its noise lies between -832 and 832, for a one 831 |
| `Mlkem.SampleNtt` | src/kat/mlkem_model.py:34-45 | the rejection loop returns the first 256 twelve-bit values below q, or none at the limit |
| `Mlkem.CbdIsSmall` | src/kat/mlkem_model.py:46-49 | sampled coefficients are at most eta in size |
| `Mlkem.CbdIsDifference` | src/kat/mlkem_model.py:46-49 | a sampled coefficient is the number of ones among its first eta bits less that among its next eta, modulo q |
| `SccCorrect.ImportExport` | src/kat/scc_core.py:130-181 | importing an exported locker gives exactly the locker, for any clear blocks, Transparent or not, with or without auxiliary data |
| `SccCorrect.SizeOfImage` | src/kat/scc_core.py:106-145 | the image is as long as scc_size announces |
| `SccCorrect.FirstSegmentIndependent` | src/kat/scc_core.py:146-181 | no change confined to the import qualifier, the second synthetic IV or Content2 alters what import recovers from the first segment |
| `SccCorrect.OpensIffSealed` | src/kat/scc_core.py:56-71 | a segment opens to P if and only if it is what sealing P gives; that sealing is RFC 8452 encryption is `SccSeal.EncryptIsSeal` |
| `SccCorrect.OpenSeal` | src/kat/scc_core.py:56-71 | a sealed segment, its first n blocks in the clear, has the size of the content and opens to it |
| `SccSeal.EncryptIsSeal` | src/kat/scc_core.py:30-71 | with a 256-bit key, sealing a segment is RFC 8452 encryption, defined apart from it: zero nonce, no length block, bit 126 of tag input and counter replaced by the segment number |
| `SccSeal.KeysAreRfc` | src/kat/scc_core.py:27-55 | both derived keys are those of RFC 8452 for the zero nonce |
| `SccSeal.OpenedAgree` | src/kat/scc_core.py:64-71 | under an injective cipher, whatever opens with one synthetic IV, from any content and any associated data, has one POLYVAL in the 126 bits that are encrypted |
| `SccCorrect.AcceptedIsExported` | src/kat/scc_core.py:146-181 | an image of its announced size that is imported with unchanged metadata is exactly the export of the locker it yields |
| `SccCorrect.DroppedImport` | src/kat/scc_core.py:146-181 | an image marked as having dropped its second section yields the first content and no trace of the second, whatever stands in its place |
| `SccImports.AdDetermines` | src/kat/scc_core.py:87-129 | the associated data of two lockers agree if and only if their metadata do and every Locality entry named stands for the same secret |
| `SccImports.EffectiveIsFirst` | src/kat/scc_core.py:92-100 | an entry stands for the first one that is set from it on in its chain of three |
| `SccImports.ImportedIsExportable` | src/kat/scc_core.py:146-181 | whatever a whole image yields in a configured State is well-formed, supported, has contents of the sizes announced, and so can be exported again; or it is an Error State without contents |
| `SccImports.ImportRefuses` | src/kat/scc_core.py:115-160 | an import is Invalid exactly for metadata that are not well-formed, and Unsupported exactly for well-formed metadata of an unknown machine |
| `SccImports.SealClears` | src/kat/scc_core.py:130-145 | of a sealed segment the first n blocks are the content itself, and the rest is the encryption with them as associated data |
| `SccImports.TransparentIsClear` | src/kat/scc_core.py:130-145 | the image of a Transparent locker shows its contents, zero-padded to whole blocks |
| `Metadata.DroppedBit` | src/kat/scc_core.py:56-70 | clearing bit 47 of the word, as before hashing, clears ADSDropped and nothing else |
| `Metadata.Places0` | src/kat/common.py:323-333 | the fields of bits 0 to 31 of the word are the numbers at the positions of the table |
| `Metadata.Places1` | src/kat/common.py:323-333 | the fields of bits 32 to 63 are the numbers at the positions of the table |
| `Metadata.Places2` | src/kat/common.py:323-333 | the fields of bits 64 to 95 are the numbers at the positions of the table |
| `Metadata.Places3` | src/kat/common.py:323-333 | the fields of bits 96 to 127 are the numbers at the positions of the table |
| `Scc.NamedIsShort` | src/kat/scc_core.py:87-129 | a Locality never names more than six entries, so the associated data always fits |
| `Metadata.UnpackPack` | src/kat/common.py:322-343 | the metadata fields are read back from the 128-bit word they were packed into |
| `Metadata.PackUnpack` | src/kat/common.py:322-343 | every 128-bit word is the packing of its fields |
| `KleCorrect.CapacityConserved` | src/kat/mgmt_model.py:94-114 | over every run, free slots plus lockers holding one stays constant, and a locker holds one exactly when its State is not zero |
| `KleCorrect.StepKeepsInv` | src/kat/mgmt_model.py:160-360 | every management instruction keeps that, whatever it returns or raises |
| `KleCorrect.OutOfMemoryMeansFull` | src/kat/mgmt_model.py:294-323 | opening an operation runs out of memory only when the other lockers hold all the capacity, and then only the target is cleared |
| `KleCorrect.FreedContentUnseen` | src/kat/mgmt_model.py:94-102 | with zero_alloc, what freed capacity held makes no difference to any result or locker of any later run |
| `KleCorrect.OpenedReadsZero` | src/kat/mgmt_model.py:294-323 | with zero_alloc, capacity given to a provisioning or import reads zero |
| `KleCorrect.FreedContentSeen` | src/kat/mgmt_model.py:94-102 | without zero_alloc, an operation can start with what another locker held: the input that shows it |
| `KleCorrect.NameFollowsRun` | src/kat/mgmt_model.py:160-360 | over every run without an instruction that names another locker, klnamedlocker stays on the context it named through renames and exchanges, or names none once that context is gone |
| `KleCorrect.NameFollows` | src/kat/mgmt_model.py:160-360 | the same for one instruction |
| `KleCorrect.ContextsMove` | src/kat/mgmt_model.py:279-292 | rename and swap carry every surviving context, whole, to the place that the name follows it to |
| `KleCorrect.ContextsStayApart` | src/kat/mgmt_model.py:279-292 | no two contexts end up in the same locker |
| `KleCorrect.CloneCopies` | src/kat/mgmt_model.py:270-278 | a clone changes the destination only, to a copy of the source with capacity of its own; a context being configured is not cloned, and one is not when the others hold all capacity, which clears the destination |
| `KleGuards.RightsOnlyNarrow` | src/kat/mgmt_model.py:160-360 | over every run, wherever a context goes, it never has a policy or usage bit more, a Locality entry less or a later date than it had |
| `KleGuards.RestrictedKeeps` | src/kat/mgmt_model.py:241-265 | a restriction keeps exactly the policy and usage bits that both have, adds exactly the Locality flags asked for, and never leaves a date later than the one asked for |
| `KleGuards.ImportsAreAuthentic` | src/kat/mgmt_model.py:324-360 | over every run, an import that has become Valid was completed with a content that carries its tag and entries that are configured, or an instruction nested another operation in it |
| `KleGuards.NestedExportCompletes` | src/kat/mgmt_model.py:324-360 | the exception is real: an export opened in an import completes to a Valid State whatever the tag is |
| `KleGuards.ErrorsStay` | src/kat/mgmt_model.py:160-360 | over every run, a context in an Error State stays in one |
| `KleGuards.StepGuarded` | src/kat/mgmt_model.py:160-360 | one instruction gives a context no right that it lacks, does not validate it without its tag, and changes its content and tag only in the States that take content, or by emptying it |
| `KleGuards.ContentLeaves` | src/kat/mgmt_model.py:335-339 | no instruction gives out content but the one that reads the named locker, and that only while it is exporting |
| `KleGuards.UsageNeedsRight` | src/kat/mgmt_model.py:176-212 | a locker whose usage bit for the mode is missing or whose date has come stays as it is or falls into an Error State, and one that is used enters only a State that its machine admits with its policy |
| `KleGuards.PolicyAdmits` | src/kat/mgmt_model.py:185-196 | a machine with both rights enters and works in its two States only with the policy bit of each |
| `KleMetadata.ValidIsImportable` | src/kat/mgmt_model.py:32-93 | after any run, the metadata of a locker in a Valid State pass the check of an import if and only if no restriction has named the reserved high Locality entry, cleared a policy that must not be zero, or named an entry that is not configured |
| `KleMetadata.RestrictedAway` | src/kat/mgmt_model.py:241-265 | such restrictions are admitted: two inputs that leave a locker in use with metadata that an import refuses |
| `KleMetadata.ValidIsFinished` | src/kat/mgmt_model.py:160-360 | over every run, a key that is yet to be made up and the format of other units are found in Configuration States only |
| `KleMetadata.CskNeeded` | src/kat/mgmt_model.py:117-123 | an export is opened, an import opened and an import completed only with the CSK of the level at hand |
| `KleMetadata.Substitution` | src/kat/mgmt_model.py:78-84 | a Locality entry stands for the first configured one from it on in its chain of three |
| `KleUnit.Kle.Free` | src/kat/mgmt_model.py:94-97 | the object array after freeing is that of the machine, with a new locker object in place |
| `KleUnit.Kle.Alloc` | src/kat/mgmt_model.py:98-102 | the slot comes out of the pool, or nothing changes |
| `KleUnit.Kle.Clone` | src/kat/mgmt_model.py:270-278 | the object array after cloning is that of the machine |
| `KleUnit.Kle.Rename` | src/kat/mgmt_model.py:279-286 | moving the reference and putting a new locker in its place is the machine's rename |
| `KleUnit.Kle.Swap` | src/kat/mgmt_model.py:287-292 | exchanging two references is the machine's swap, and makes no new locker |
| `KleUnit.Kle.Usage` | src/kat/mgmt_model.py:176-212 | the object makes exactly the machine's transition and returns the same result |
| `KleUnit.Kle.SetSt` | src/kat/mgmt_model.py:214-229 | the object makes exactly the machine's transition, for every immediate, and returns the same result |
| `KleUnit.Kle.ClearAds` | src/kat/mgmt_model.py:230-240 | the object makes exactly the machine's transition and returns the same result |
| `KleUnit.Kle.Restrict` | src/kat/mgmt_model.py:241-266 | the object makes exactly the machine's transition and returns the same result |
| `KleUnit.Kle.Mgmt` | src/kat/mgmt_model.py:294-323 | the object makes exactly the machine's transition, for every operation and nesting, and returns the same result |
| `KleUnit.Kle.ExportOpen` | src/kat/mgmt_model.py:324-329 | the object makes exactly the machine's transition and returns the same result |
| `KleUnit.Kle.Complete` | src/kat/mgmt_model.py:341-360 | the object makes exactly the machine's transition and returns the same result |
| `KleUnit.Kle.MvIn` | src/kat/mgmt_model.py:330-334 | content and tag reach the named locker only while an operation that takes content is open |
| `KleUnit.Kle.MvOut` | src/kat/mgmt_model.py:335-339 | what is handed out is what the machine hands out, and nothing changes |
| `EddsaRuns.TwoPassesSign` | src/kat/ecc_machine.py:297-352 | after any run that ends with both Msg_Absorb passes done, a completed Sign_Generate leaves the one-shot signature (RFC 8032 section 5.1.6) of the second message under the seed and context of the first pass, and a halted one changes the progress only |
| `EddsaRuns.SignatureHandedOut` | src/kat/ecc_machine.py:362-369 | whatever the sizes of the reads, what was handed out in all when Success is reached is that signature |
| `EddsaRuns.NothingChangesBetween` | src/kat/ecc_machine.py:120-166 | from the first pass to the signature no instruction changes seed, context or R, and R is the point of the first message's nonce |
| `EddsaRuns.SecondPassAccepted` | src/kat/ecc_machine.py:339-352 | the second pass ends without failure if and only if its message gives the nonce scalar of the first |
| `EddsaRuns.StepKeepsInv` | src/kat/ecc_machine.py:120-393 | every instruction keeps the invariant that ties the buffers and flags to the series |
| `EddsaLocker.Locker.constructor` | src/kat/ecc_machine.py:19-41 | a provisioned object, with its byte buffers, is the created machine |
| `EddsaLocker.Locker.SetSt` | src/kat/ecc_machine.py:120-195 | the object, whose byte buffers are changed in place, makes exactly the transition of the machine |
| `EddsaLocker.Locker.ExecIn` | src/kat/ecc_machine.py:196-213 | the bytes are written into the buffer that the State loads, and only there, as in the machine |
| `EddsaLocker.Locker.ExecD` | src/kat/ecc_machine.py:215-324 | the operation of the State leaves the object as the machine is left |
| `EddsaLocker.Locker.ExecOut` | src/kat/ecc_machine.py:362-369 | the bytes handed out and the new position are those of the machine |
| `EddsaLocker.Locker.Derive` | src/kat/ecc_machine.py:371-382 | the bytes handed out and the new State are those of the machine |
| `EddsaVerify.SignVerifies` | src/kat/ecc_model.py:180-195 | on every curve whose points form a group with a base point of order L, every one-shot signature (plain, prehashed or with context) satisfies the cofactored verification equation with its challenge; the converse is `EddsaVerify.VerifiesIff` |
| `EddsaVerify.SignedSatisfies` | src/kat/ecc_machine.py:319-324 | for any scalars r, s and challenge k, the encoded point r B with (r + k s) mod L satisfies the equation under s B; the converse is `EddsaVerify.VerifiesIff` |
| `EddsaVerify.SignedIsAccepted` | src/kat/ecc_machine.py:309-352 | a signature made by the two passes of one locker, handed out in any pieces, is accepted by another locker that absorbed the same message under the public key and context; what it refuses is `EddsaVerify.ThirdPassDecides` |
| `EddsaVerify.VerifiesIff` | src/kat/ecc_machine.py:319-324 | with a base point of order exactly L, L odd: for the points r B and s B and any number S that fits its bytes, verification with challenge k holds if and only if S is (r + k s) mod L |
| `EddsaVerify.ThirdPassDecides` | src/kat/ecc_machine.py:309-352 | after any run that ends in the third pass with such points, Sig_Verify ends in Success exactly for the S that signing the absorbed message computes, and in Failure for every other |
| `EddsaVerify.PrehashDecides` | src/kat/ecc_machine.py:309-318 | the same for a hash that was loaded, signed and verified as a prehashed message |
| `EddsaVerify.ClampedScalar` | src/kat/ecc_model.py:173-178 | the secret scalar is a multiple of the cofactor with its top bit fixed, and the bytes between are those of the hash |
| `EddsaVerify.DomInjective` | src/kat/ecc_model.py:169-172 | the prefix of a message determines the variant and the context |
| `EddsaGates.SecretsAgree` | src/kat/ecc_machine.py:288-296 | two lockers that multiply each other's public key come to the same shared secret, which leaves whole or not at all, and a multiplication fails exactly for a public key that is the neutral element |
| `EddsaGates.LoadsConcatenate` | src/kat/ecc_machine.py:196-213 | however the bytes are cut into pieces, the field that a Set State loads holds them in order, without what is too much of the last piece, and nothing else changes |
| `EddsaGates.PointsExchange` | src/kat/ecc_machine.py:175-195 | asked for both at once on entering Ready, the generator and the second point change places, and a second time change back |
| `EddsaGates.GeneratorIsMultiplied` | src/kat/ecc_machine.py:288-296 | a multiplication of the default generator hands out the public key of the seed |
| `EddsaGates.RightsOverRuns` | src/kat/ecc_machine.py:91-195 | over every run, a right that the policy lacks at the start is never gained, no State that uses it is reached, and neither signing nor verification is entered without what it needs |
| `EddsaGates.NoSigning` | src/kat/ecc_machine.py:91-195 | without the right to sign no instruction leads to the first pass, to Sign_Generate or to a signature in Output |
| `EddsaGates.NoVerifying` | src/kat/ecc_machine.py:91-195 | without the right to verify no instruction leads to the third pass, to Sig_Verify or to loading a signature |
| `EddsaVerify.ReadWritten` | src/kat/ecc_model.py:180-186 | a scalar below L is read back from its little-endian bytes |
| `Groups.DoubleAndAdd` | src/kat/ecc_model.py:52-57 | double and add over the bits from the top gives the k-fold sum of the point, in any group |
| `Groups.TimesCong` | src/kat/ecc_model.py:52-57 | multiples of a point depend on the factor modulo the order only |
| `Groups.EqualMultiples` | src/kat/ecc_model.py:52-57 | equal multiples of a point of order n have factors that agree modulo n |
| `EcSignatures.EcdsaSignedVerifies` | src/kat/ecc_model.py:81-95 | every ECDSA signature that is returned verifies under the point of its key, for every key, digest and nonce from 1 to n - 1 |
| `EcSignatures.EcdsaVerifyIff` | src/kat/ecc_model.py:81-95 | under the point of a key, ECDSA verification accepts exactly the pairs that signing with some nonce returns |
| `EcSignatures.Sm2SignedVerifies` | src/kat/ecc_model.py:96-112 | every SM2 signature that is returned verifies under the point of its key, for every digest, keys from 1 to n - 2 and nonces from 1 to n - 1; the rule that draws again when r + k = n rules out the sum that verification refuses |
| `EcSignatures.Sm2VerifyIff` | src/kat/ecc_model.py:96-112 | under the point of a key, SM2 verification accepts exactly the pairs that signing with some nonce returns |

## Left out

General:

- Block ciphers, compression functions, permutations, XOFs and the elliptic-curve group are parameters; cryptographic
  strength is not a claim.
- The one-shot definitions (GHASH and counter mode, OCB.crypt, the CMAC chain, the hash chains, Ed.sign) serve as
  specifications and are recursive functions, although most of them are loops in the repository.
- Values are bit strings, least significant bit first, so conversions between bytes and integers are the identity.
- The KAT drivers, vector tables and documentation tools are not modelled.
- zklio substitution of instruction Forms, and the destination side of derivation between lockers, are not modelled.

By component:

- ML-DSA: a counter kappa that does not fit its two bytes counts as no signature; the State extension bits are flags; the
  metadata word of the locker and exec without a data argument are not modelled.
- Digits.UnpackPack: fields are joined by addition, which is what the bitwise or of disjoint fields gives.
- GCM: an IV position or a last block length of 128 or more comes only with an image that no locker exported; the model
  refuses the exec that would use it.
- GCM-SIV: a last block length above 120 in such an image is read as 0.
- OCB: an image that no locker exported (a length above 120, or index 0 within a message) is not admitted by the model.
- CMAC: ciphers with 64-bit blocks. All AEAD Machines: import for ciphers other than AES.
- Hash: keys loaded through SetKey, metadata words, sealed derivation, an explicit window on absorbing, HMAC over BLAKE2
  and SHAKE, and messages whose bit length does not fit the length field of the padding.
- Hash: padding from a position inside a byte would not end in the source and fails in the model; no run gets there.
- HashRuns.HaltedReadAccepted: for a read in Output that starts inside a byte, it is not stated which bit the reported
  position stands for; `HashRuns.ReadsOneStream` states which bits the resumed read hands out.
- ML-KEM: the source's optional limit on sampling is always present, and a sampling that passes it yields no key.
- SCC: only AES lockers with 256-bit and 128-bit keys, sealed under a 256-bit CSK; the table of clear prefixes is empty; no
  round trip is claimed for the short form of Error States.
- Management unit: the reading instructions (metadata, size, capacity), the memory transfers, load, store and derive, and
  establishment of the CSK; the tag of an operation is uninterpreted and system formats complete with an error.
- EdDSA: the second machine extension, clearing to State 0, and an import of a generator of the wrong length.
- ECDSA and SM2: the addition formulas of the curves and the derivation of nonces; the Weierstrass lockers, with their halts
  and repeated draws. Montgomery curves and their locker (X25519, X448).
