# Verified models of the AES, AMR and ZBar cores

This project models the hardest parts of a media-application code base and proves properties of
them: its AES block cipher and modes, the discrete parts of its AMR speech encoder, the 1-D
scanning, caching and allocation machinery of its bar-code reader, and the intrusive list and
descriptor registry of its broadcast component. `dafny verify dfyconfig.toml` checks everything.

## What is proved

* **AES** (`GF256`, `Fips197`, `CipherBytes`, `AesTables`, `AesStatic`, `AesBlock`, `ModesSpec`,
  `AesModes`). The byte-matrix cipher of FIPS-197 is the specification, and `CipherBytes` says what it
  does to single bytes. The generated tables, the fused 32-bit rounds, the three key-schedule loops and
  the transformed decryption schedule are proved equal to it for every key, block and buffer position;
  decryption undoes encryption. CBC, CFB128 and CTR are the modes that NIST SP 800-38A describes, for
  every length, split and in-place use.
* **AMR** (`CodebookSearch`, `FilteredCode`, `TrackCoverage`, `PitchSharpening`, `PulseCoding`,
  `PitchLag`, `DtxFrames`, `OctetPacking`). The correlations of the codebook search mean what they
  should, so that it compares filtered vectors with the target; it keeps its sums exact and ends
  with the first best of its four passes; pitch sharpening commutes with filtering; the pitch search
  finds the lag and fraction that it must; pulses, lags and frame bits can be decoded from what is
  emitted (3GPP TS 26.090 sections 5.6 and 5.7, RFC 3267 section 5.3); the discontinuous-transmission
  machines keep to their schedule over every run.
* **ZBar** (`EdgeScanner`, `WidthWindow`, `Symbols`, `SymbolPool`, `ResultList`, `ResultCache`,
  `ImageScanner`). Whole-line and whole-history invariants of the edge tracker, which always has the
  steepest crossing since the last mark, the width ring and its sorts and the purging cache. Symbols
  are objects on chains of pointers: over every sequence of scanner operations each of them is in
  exactly one bucket, the result list, the cache, a decoder or the hands of the application.
* **Broadcast** (`CircularList`, `EpollRegistry`). The circular list on the heap, and the registry
  built on it against every history of operations. `Division` and `Sequences` hold what several
  modules share.

Code that changes state in the source is imperative here: classes with their fields, arrays written
in place, chains of objects, loops with invariants. Each method is tied to a function or predicate
about which the properties are proved as lemmas.

## Where the code and its description differ

The code is modelled as it is. Each difference is a lemma with its exact condition.

* The codebook search is described as searching whole tracks; some of its loops stop before position
  39, and then a stage can miss the best pair (`TrackCoverage.BestPairIsBest`).
* The filtered vector of the eight-pulse codebook is made of pulses of amplitude 1, the code vector
  of slightly shorter ones (`PulseCoding.Code8`).
* `decAnaElapsedCount` is a 16-bit counter, so after about eleven minutes of uninterrupted speech the
  frames of one hangover need not decide alike (`DtxFrames.HangoverUniform`, `DtxFrames.LongSpeech`).
* `EncoderMMS` writes one octet and returns none in the reserved modes 9 to 14
  (`OctetPacking.EncoderMMS`).
* `zbar_scanner_new_scan` hands a negative answer of the decoder on only if it is the last
  (`EdgeScanner.FlushedMeans`).
* The age of a cache entry is cut to 32 bits, so a symbol that comes back after a multiple of some 50
  days may count as a duplicate (`ResultCache.RunCounts`, `ResultCache.FiftyDays`).
* `decode_sort3` and `decode_sortn` disagree on some ties (`WidthWindow.Sort3Agrees`).
* The comments in `qrcode/src/symbol.h` call the symbols that `nsyms` counts filtered and the tail the
  last unfiltered one; the code does the opposite, and `ResultList` follows the code.
* A second registration of a descriptor reaches the kernel, while the list keeps the processor of the
  first (`EpollRegistry.Registry.Agreement`).

## Model

| member | source | states |
|---|---|---|
| `AesTables.XtimeCWide` | C/AES/aes.cpp:362 | the macro XTIME on an int, reduced to a byte, is multiplication by x in GF(2^8), and with the byte added multiplication by 3 |
| `GF256.Pow3Equal` | C/AES/aes.cpp:376-381 | the powers of generator 3 repeat exactly modulo 255, so the pow/log loop meets every non-zero byte once per turn |
| `GF256.LogExists` | C/AES/aes.cpp:376-381 | every non-zero byte is a power of 3 below 255, so log is complete (only log[0] is never written) |
| `GF256.GMulByLogs` | C/AES/aes.cpp:363 | a product is the power at the sum of logarithms modulo 255 |
| `GF256.InvInvolution` | C/AES/aes.cpp:400 | taking inverses is an involution |
| `Fips197.AffineByBits` | C/AES/aes.cpp:402-406 | the affine map bit by bit, equation (5.1) of FIPS-197 |
| `Fips197.SboxInverse` | C/AES/aes.cpp:395-410 | the substitution and the inverse substitution undo each other on every byte |
| `Fips197.InvMixColumnInverse` | C/AES/aes.cpp:432-435 | the matrix of InvMixColumns inverts the one of MixColumns |
| `Fips197.InvMixColumnLinear` | C/AES/aes.cpp:601-622 | inverse column mixing moves across the addition of a round key, FIPS-197 section 5.3.5 |
| `Fips197.InvSubShiftCommute` | C/AES/aes.cpp:655-676 | the inverse substitution commutes with the inverse row shift |
| `Fips197.InvCipherUndoesCipher` | C/AES/aes.cpp:681-787 | for every schedule and block, InvCipher undoes Cipher |
| `Fips197.EqInvCipherIsInvCipher` | C/AES/aes.cpp:601-622 | the equivalent inverse cipher under the transformed schedule is the inverse cipher |
| `CipherBytes.WordFollows` | C/AES/aes.cpp:493-548 | byte j of a word of the expanded key is byte j of the word nk before plus byte j of the word before; every nk words plus the substituted byte (j + 1) mod 4 of the word before and, in byte 0, the next of 01 02 04 08 10 20 40 80 1b 36; for 256-bit keys substituted in place in the middle of these |
| `CipherBytes.ScheduleExpands` | C/AES/aes.cpp:484-548 | the key schedule of the bytes of a key is made so from its first byte on |
| `CipherBytes.ExpansionUnique` | C/AES/aes.cpp:484-548 | a key has only one such expansion |
| `CipherBytes.RoundByBytes` | C/AES/aes.cpp:632-653 | byte (r, c) after a round: the substituted bytes on the diagonal from (r, c + r) downwards with weights 2, 3, 1, 1, plus the key byte; the last round only the first of them |
| `CipherBytes.CipherByBytes` | C/AES/aes.cpp:749-778 | the cipher goes through states that are made so from one another |
| `AesTables.MulCIsGMul` | C/AES/aes.cpp:363 | the macro MUL on the generated pow and log tables is multiplication in GF(2^8) |
| `AesTables.GenPowLog` | C/AES/aes.cpp:376-381 | the loop leaves the powers of 3 and their logarithms |
| `AesTables.GenRcon` | C/AES/aes.cpp:386-390 | the ten round constants are the powers of x |
| `AesTables.InverseByTables` | C/AES/aes.cpp:400 | pow[255 - log[i]] is the inverse of i |
| `AesTables.GenSboxes` | C/AES/aes.cpp:395-410 | FSb is the S-box of FIPS-197 on every byte and RSb its inverse |
| `AesTables.FwdEntryPack` | C/AES/aes.cpp:421-424 | an entry of FT0 is the first column of MixColumns times the S-box value |
| `AesTables.RevEntryPack` | C/AES/aes.cpp:432-435 | an entry of RT0 is the first column of InvMixColumns times the inverse S-box value |
| `AesTables.RotatedParts` | C/AES/aes.cpp:426-439 | the other three tables hold the other three columns |
| `AesStatic.Tables.GenTables` | C/AES/aes.cpp:367-441 | aes_gen_tables fills all eleven tables with the values that FIPS-197 asks for |
| `AesStatic.Tables.Init` | C/AES/aes.cpp:454-458 | the lazy initialisation leaves valid tables, whether or not they were there before |
| `AesStatic.Tables.FWordMeaning` | C/AES/aes.cpp:634-637 | a fused forward lookup is SubBytes, MixColumns and AddRoundKey on one column |
| `AesStatic.Tables.RWordMeaning` | C/AES/aes.cpp:657-660 | a fused reverse lookup is the inverse steps on one column |
| `AesStatic.Tables.InvKeyMixMeaning` | C/AES/aes.cpp:612-615 | the RT-of-FSb lookups are InvMixColumns on a key word |
| `AesBlock.FRoundMeaning` | C/AES/aes.cpp:632-653 | four fused words with shifted indices are one Round of FIPS-197 |
| `AesBlock.RRoundMeaning` | C/AES/aes.cpp:655-676 | likewise one round of the equivalent inverse cipher |
| `AesBlock.LastRoundMeaning` | C/AES/aes.cpp:756-778 | the last round leaves column mixing out |
| `AesBlock.Context.LoadKey` | C/AES/aes.cpp:484-487 | the key words are the key bytes by columns |
| `AesBlock.Context.Expand128` | C/AES/aes.cpp:493-504 | the loop for 128-bit keys leaves the 44 words of KeyExpansion, which CipherBytes.WordFollows gives byte by byte, inside the buffer of 68 |
| `AesBlock.Context.Expand192` | C/AES/aes.cpp:509-522 | the loop for 192-bit keys leaves 54 words of KeyExpansion, likewise, two more than are used |
| `AesBlock.Context.Expand256` | C/AES/aes.cpp:527-548 | the loop for 256-bit keys leaves 64 words of KeyExpansion, likewise, four more than are used |
| `AesBlock.Context.SetKeyEnc` | C/AES/aes.cpp:448-557 | aes_setkey_enc: for the three sizes the expansion of the key, byte by byte from the bytes of the key, as the round keys of FIPS-197; the error code and nothing changed for any other size |
| `AesBlock.Context.InvertFrom` | C/AES/aes.cpp:601-622 | the three copying phases leave the reversed schedule with its inner round keys inverse-mixed |
| `AesBlock.Context.SetKeyDec` | C/AES/aes.cpp:562-630 | aes_setkey_dec: the expansion of the key, by fours in reverse order and inverse-mixed inside, which is the schedule of the equivalent inverse cipher; or the error code |
| `AesBlock.Context.FRound` | C/AES/aes.cpp:632-653 | AES_FROUND at a place in the schedule is the Round with that round key |
| `AesBlock.Context.RRound` | C/AES/aes.cpp:655-676 | AES_RROUND likewise |
| `AesBlock.Context.EncryptWords` | C/AES/aes.cpp:749-778 | the encryption branch computes Cipher on every state |
| `AesBlock.Context.DecryptWords` | C/AES/aes.cpp:715-745 | the decryption branch computes the equivalent inverse cipher on every state |
| `AesBlock.Context.CryptEcb` | C/AES/aes.cpp:681-787 | aes_crypt_ecb writes exactly the 16 output bytes, Cipher or EqInvCipher of the input; the blocks may overlap in any way |
| `AesBlock.DecryptUndoesEncrypt` | C/AES/aes.cpp:681-787 | decrypting under the inverse schedule returns the block that was encrypted |
| `AesBlock.EncryptionByBytes` | C/AES/aes.cpp:448-787 | encrypting a block under the schedule of a key is AES from the bytes of key and block to the bytes of the output |
| `ModesSpec.CbcRoundTrip` | C/AES/aes.cpp:793-852 | CBC decryption undoes CBC encryption for every key, IV and aligned length |
| `ModesSpec.CbcEncryptSplit` | C/AES/aes.cpp:837-848 | encrypting in two calls that hand the IV on is one call |
| `ModesSpec.CbcDecryptSplit` | C/AES/aes.cpp:820-833 | decrypting in two calls that hand the IV on is one call |
| `ModesSpec.CbcEncryptAt` | C/AES/aes.cpp:837-848 | block i of the ciphertext is the cipher of block i of the message xor ciphertext block i - 1, NIST SP 800-38A section 6.2 |
| `ModesSpec.CbcDecryptAt` | C/AES/aes.cpp:820-833 | block i of the message is the inverse cipher of ciphertext block i, xor ciphertext block i - 1 |
| `ModesSpec.CfbRoundTrip` | C/AES/aes.cpp:859-900 | CFB128 decryption undoes encryption from any (iv, iv_off) and leaves the same (iv, iv_off) |
| `ModesSpec.CfbSplit` | C/AES/aes.cpp:859-900 | any split of the data over calls gives the same bytes and the same final register |
| `ModesSpec.CfbIsBlockMode` | C/AES/aes.cpp:884-895 | on whole blocks the byte loop is mode CFB of NIST SP 800-38A section 6.3 |
| `ModesSpec.IncrementValue` | C/AES/aes.cpp:923-925 | the carry loop adds one to a big-endian number modulo its range |
| `ModesSpec.CounterValue` | C/AES/aes.cpp:923-925 | k increments add k modulo 2^128 |
| `ModesSpec.CtrSelfInverse` | C/AES/aes.cpp:907-936 | CTR run twice from one state restores the data |
| `ModesSpec.CtrSplit` | C/AES/aes.cpp:907-936 | any split of the data over calls gives the same bytes |
| `ModesSpec.CtrAdvance` | C/AES/aes.cpp:918-933 | after k bytes the offset is (n + k) mod 16 and the counter has advanced by ceil((n+k)/16) - ceil(n/16) |
| `ModesSpec.CtrClosedForm` | C/AES/aes.cpp:918-931 | every output byte in closed form: key stream block and position from its index alone, NIST SP 800-38A section 6.5 |
| `ModesSpec.CtrFinalCounter` | C/AES/aes.cpp:918-933 | the counter left behind, as a number modulo 2^128 |
| `AesModes.CryptCbc` | C/AES/aes.cpp:793-852 | aes_crypt_cbc: the error for unaligned lengths; otherwise CBC output at its place, last ciphertext block left as IV, also when both regions lie in one buffer |
| `AesModes.CryptCfb128` | C/AES/aes.cpp:859-900 | aes_crypt_cfb128 computes the byte fold and leaves its register and offset, in place as well |
| `AesModes.IncrementCounter` | C/AES/aes.cpp:923-925 | the carry loop computes the big-endian increment |
| `AesModes.CryptCtr` | C/AES/aes.cpp:907-936 | aes_crypt_ctr computes the byte fold and leaves counter, stream block and offset, in place as well |
| `AesModes.SchedulesInvert` | C/AES/aes.cpp:562-630 | contexts set up from one key by the two key functions are inverse to each other |
| `AesModes.BlockThereAndBack` | C/AES/aes.cpp:448-787 | from key bytes and a block: the key set up both ways, the block encrypted as AES asks for, byte by byte, and decryption restores it; the error code for any other key size |
| `AesModes.EncryptThenDecrypt` | C/AES/aes.cpp:793-852 | a buffer encrypted in place and decrypted in place is restored, for every key, IV and length |
| `CodebookSearch.EnergyIsDoubleSum` | C/amr_encode/sp_enc.c:6343-6350 | for symmetric rr the incremental energy is the full double sum over the pulses |
| `CodebookSearch.CrossMultiply` | C/amr_encode/sp_enc.c:6306-6695 | the cross-multiplied test compares ps^2 / alp |
| `TrackCoverage.BestPairIsBest` | C/amr_encode/sp_enc.c:6332-6695 | after any pulses placed before, a stage chooses the best of all pairs of its two tracks for every target and positive matrix if and only if its open loop does not run on the last track |
| `TrackCoverage.MissesBest` | C/amr_encode/sp_enc.c:6332-6695 | otherwise, for an impulse as response and a target that peaks at 39, the pair chosen is beaten by one with position 39 |
| `TrackCoverage.BestExists` | C/amr_encode/sp_enc.c:6345-6480 | among the pairs that a stage visits there is always a first best one |
| `CodebookSearch.SearchPair` | C/amr_encode/sp_enc.c:6345-6480 | the nested loops keep ps, alp equal to the sums over the chosen pulses and end with the first best of the pairs that they visit |
| `CodebookSearch.SearchPass` | C/amr_encode/sp_enc.c:6332-6684 | one pass keeps two pulses per track and makes each pair the best given the ones before |
| `CodebookSearch.RotateTracks` | C/amr_encode/sp_enc.c:6689-6694 | the cyclic permutation of the starting tracks |
| `CodebookSearch.RotatedCount` | C/amr_encode/sp_enc.c:6689-6694 | every rotation still visits each track twice |
| `CodebookSearch.RotatedAt` | C/amr_encode/sp_enc.c:6689-6694 | after r rotations the first track is where it was and the others have moved up by r places, going round |
| `CodebookSearch.Search` | C/amr_encode/sp_enc.c:6306-6695 | for all inputs codvec has two positions per track; for positive rr it is the first of the best of the four passes |
| `CodebookSearch.TrackMaximum` | C/amr_encode/sp_enc.c:5609-5620 | the first largest value of a track |
| `CodebookSearch.FillStart` | C/amr_encode/sp_enc.c:5633-5644 | the starting tracks list each track twice, from the best one on |
| `CodebookSearch.SetSign` | C/amr_encode/sp_enc.c:5570-5645 | set_sign12k2: signs and signed correlations by the weighted sum of residual and correlation; the first maximum of its magnitude on each track; the tracks from the one with the largest of these on, the first such |
| `FilteredCode.CorHX` | C/amr_encode/sp_enc.c:4085-4094 | cor_h_x: the product of the target with the echo of a pulse at each position |
| `FilteredCode.CorH` | C/amr_encode/sp_enc.c:4174-4459 | cor_h, along the diagonals: every entry is the signed product of two echoes |
| `FilteredCode.EnergyMeans` | C/amr_encode/sp_enc.c:6306-6695 | the energy that the search adds up is the energy of the pulses sent through the impulse response |
| `FilteredCode.CorrMeans` | C/amr_encode/sp_enc.c:6306-6695 | its correlation is the product of that filtered vector with the target |
| `FilteredCode.PositiveExactly` | C/amr_encode/sp_enc.c:4174-4459 | all quadratic forms over pulses are positive if and only if the first sample of the impulse response is not zero |
| `FilteredCode.ScoreMeans` | C/amr_encode/sp_enc.c:6306-6695 | what the search maximises is the squared product of filtered vector and target over the energy of the vector |
| `PitchSharpening.Sharpen` | C/amr_encode/sp_enc.c:6238-6246 | the in-place loop applies the recursive pitch filter |
| `PitchSharpening.SharpeningCommutes` | C/amr_encode/sp_enc.c:6238-6267 | the sharpened vector behind the response is the vector behind the sharpened response, for every lag and gain |
| `PulseCoding.PairMeaning` | C/amr_encode/sp_enc.c:6756-6780 | an index pair holds exactly the pulses of its track: equal signs in order, unequal signs out of order |
| `PulseCoding.BuildCode10` | C/amr_encode/sp_enc.c:6718-6813 | build_code_10i40_35bits: code vector, ten indices and filtered vector of the pulses, in any order of codvec |
| `PulseCoding.FilterPulses` | C/amr_encode/sp_enc.c:6788-6812 | the unrolled sums send the signed pulses through the impulse response |
| `PulseCoding.FilteredVector` | C/amr_encode/sp_enc.c:6788-6812 | for any pulses that is the code vector behind the response, but for its amplitude |
| `PulseCoding.GrayCode` | C/amr_encode/sp_enc.c:6960-6962 | the loop applies q_p to each of the ten indices |
| `PulseCoding.UngrayGray` | C/amr_encode/sp_enc.c:6823-6836 | the Gray table is undone by its inverse |
| `PulseCoding.RoundTrip10` | C/amr_encode/sp_enc.c:6718-6836 | the ten emitted indices fit their bits and decode to the code vector at every position |
| `PulseCoding.BuildCode8` | C/amr_encode/sp_enc.c:5994-6103 | build_code_8i40_31bits: code vector, four signs, eight positions and filtered vector |
| `PulseCoding.Compress10Unique` | C/amr_encode/sp_enc.c:6111-6125 | three digits fit 10 bits and are recovered |
| `PulseCoding.MultiplyShift` | C/amr_encode/sp_enc.c:6183-6186 | multiplying by 1311 and shifting by 15 is division by 25 on every value that occurs |
| `PulseCoding.Compress7Unique` | C/amr_encode/sp_enc.c:6178-6189 | the serpentine third index fits 7 bits and both digits are recovered |
| `PulseCoding.CompressCode` | C/amr_encode/sp_enc.c:6148-6190 | compress_code: four signs, two ten-bit and one seven-bit index |
| `PulseCoding.RoundTrip8` | C/amr_encode/sp_enc.c:5994-6190 | the seven emitted indices fit their bits and decode to the code vector at every position |
| `PulseCoding.Correlate` | C/amr_encode/sp_enc.c:6252-6254 | the target correlations under signs made from the residual and from them, the matrix of the signed response, and the start of the search at the maxima of those sums |
| `PulseCoding.PlacePulses` | C/amr_encode/sp_enc.c:6252-6255 | two pulses per track, none of the four vectors tried from these maxima on matching the target better |
| `PulseCoding.Code10` | C/amr_encode/sp_enc.c:6927-6972 | code_10i40_35bits as a whole: for every target, residual, response, lag and gain a sign is negative exactly where kCn cn(j) + kDn d(j) is, d the target correlations; the indices decode to the code vector, which is the best of the four tried from the maxima of these sums on; code is that vector sharpened, and y is the sharpened vector behind the original response |
| `PulseCoding.Code8` | C/amr_encode/sp_enc.c:6232-6267 | code_8i40_31bits as a whole, likewise; y times the amplitude of its pulses is the sharpened vector behind the original response |
| `PitchLag.GetRange` | C/amr_encode/sp_enc.c:2931-2945 | getRange: a window of the wanted width, moved inside the lag limits |
| `PitchLag.SearchInteger` | C/amr_encode/sp_enc.c:3479-3487 | the last of the lags with the largest correlation |
| `PitchLag.SearchFrac` | C/amr_encode/sp_enc.c:3138-3179 | searchFrac: the first best fraction, normalised without changing the lag it stands for |
| `PitchLag.SearchFraction` | C/amr_encode/sp_enc.c:3490-3540 | the first best fraction among those allowed around the integer lag: both sides, one side or none by its place in the window; it is one that the code can hold |
| `PitchLag.FoundUnique` | C/amr_encode/sp_enc.c:3479-3540 | the last best lag and its first best allowed fraction determine the result |
| `PitchLag.Absolute3` | C/amr_encode/sp_enc.c:3201-3254 | the absolute 1/3 code is below 256 and one-to-one, across its integer seam |
| `PitchLag.Relative3` | C/amr_encode/sp_enc.c:3201-3254 | the relative 1/3 code is in range and one-to-one |
| `PitchLag.FourBits3` | C/amr_encode/sp_enc.c:3201-3254 | the 4-bit code is in 0..15 and one-to-one on windows of ten lags |
| `PitchLag.Absolute6` | C/amr_encode/sp_enc.c:3297-3322 | the absolute 1/6 code is below 512 and one-to-one, across its integer seam |
| `PitchLag.Relative6` | C/amr_encode/sp_enc.c:3297-3322 | the relative 1/6 code is in 0..60 and one-to-one |
| `PitchLag.CodableDecodes` | C/amr_encode/sp_enc.c:3545-3564 | whichever code is chosen, the index fits and decodes |
| `PitchLag.PitchState.PitchFr` | C/amr_encode/sp_enc.c:3399-3577 | Pitch_fr: for every correlation and previous lag the result is the first best allowed fraction of the last best lag of the window, and the index fits and determines it |
| `PitchLag.PitchState.Run` | C/amr_encode/sp_enc.c:3399-3577 | over any frames in any modes every subframe finds what it must around the lag before, and a decoder starting from the same previous lag recovers every lag and fraction |
| `DtxFrames.DtxState.Handle` | C/amr_encode/sp_enc.c:8690-8734 | tx_dtx_handler keeps the counters modulo 2^16 of the unbounded machine and decides by them |
| `DtxFrames.DtxState.Run` | C/amr_encode/sp_enc.c:8690-8734 | over every VAD sequence: each decision by its 16-bit counters, and the seven decisions after a speech frame alike if and only if the count stored then is at most 32760, or 32767 |
| `DtxFrames.OneChoice` | C/amr_encode/sp_enc.c:8690-8734 | with unbounded counters, after every VAD sequence that ends in speech all seven hangover frames decide alike |
| `DtxFrames.AfterBurst` | C/amr_encode/sp_enc.c:8690-8734 | after eight or more quiet frames and n of speech, whatever came before: seven quiet frames are decided by n + 7 < 30, all later ones ask for a new SID; so with 16-bit counters for n up to 32760 |
| `DtxFrames.DecisionsAgree` | C/amr_encode/sp_enc.c:8690-8734 | a decision differs from that of the unbounded machine exactly where the stored count has wrapped below the threshold |
| `DtxFrames.HangoverUniform` | C/amr_encode/sp_enc.c:8690-8734 | with 16-bit counters, after every VAD sequence that ends in speech, they do if and only if the stored count is at most 32760, or 32767 |
| `DtxFrames.LongSpeech` | C/amr_encode/sp_enc.c:8690-8734 | a run that fails: after a reset and 32731 frames of speech the count is 32761, six hangover frames are speech and the seventh is not |
| `DtxFrames.SidState.Reset` | C/amr_encode/interf_enc.c:561-566 | Sid_Sync_reset |
| `DtxFrames.SidState.Schedule` | C/amr_encode/interf_enc.c:686-724 | one frame keeps to the schedule of SID_FIRST, two NO_DATA, SID_UPDATE, then every eighth; an outstanding debt would be paid by an extra update |
| `DtxFrames.SidState.ScheduleAll` | C/amr_encode/interf_enc.c:686-724 | over every sequence of frames, homing included, the types are those of the schedule and the handover debt stays 0 |
| `OctetPacking.BodyBits` | C/amr_encode/interf_enc.c:204-361 | bit k of the class order is bit k of the body, most significant first, and zeros follow |
| `OctetPacking.BodyCarriesBits` | C/amr_encode/interf_enc.c:248-257 | bit k of the body is whether the parameter of entry k of the order table has a bit of its mask set |
| `OctetPacking.PackBits` | C/amr_encode/interf_enc.c:248-257 | the shift-and-add bit loop writes the bits of the class order |
| `OctetPacking.PackSpeech` | C/amr_encode/interf_enc.c:359-360 | with the last shift the body is the bits that the masks select, padded on the right |
| `OctetPacking.PackSid` | C/amr_encode/interf_enc.c:218-244 | a SID frame: 35 bits, the type bit, the mode with its bits reversed |
| `OctetPacking.EncoderMMS` | C/amr_encode/interf_enc.c:204-361 | EncoderMMS: table-of-contents byte and every bit of the body for every mode, in a SID frame the type bit, the reversed mode and a zero behind 35 bits; nothing written behind the octets returned; in modes 9 to 14 one byte is written and none returned |
| `EdgeScanner.AverageWithin` | qrcode/src/scanner.c:233-239 | averaged intensities stay within the range of the samples seen |
| `EdgeScanner.SlopeMeans` | qrcode/src/scanner.c:242-249 | the slope is the steeper of the last two when they go the same way, the last one otherwise |
| `EdgeScanner.OffsetCrosses` | qrcode/src/scanner.c:282-289 | where an edge is placed: the crossing of the line through the two second differences, with the exact rounding bounds for either sign; 16 for two zeros, 32 for one |
| `EdgeScanner.OffsetRange` | qrcode/src/scanner.c:282-289 | an interpolated edge lies in (32x, 32(x + 1)] |
| `EdgeScanner.ScanKeeps` | qrcode/src/scanner.c:240-297 | one sample keeps the whole invariant: rising marks, last_edge <= cur_edge <= 32x, bounded threshold, polarity by parity |
| `EdgeScanner.RunKeeps` | qrcode/src/scanner.c:223-299 | every list of samples ends in a state with that invariant |
| `EdgeScanner.TrackedEdgeAdvances` | qrcode/src/scanner.c:264-291 | each sample leaves the tracked edge or moves it forward into (32x, 32(x + 1)] |
| `EdgeScanner.SteepestTracked` | qrcode/src/scanner.c:240-291 | for every line: nothing is tracked until a crossing is accepted; then the tracked edge is the first of the steepest accepted crossings since the last mark, and all of these go its way |
| `EdgeScanner.Telescope` | qrcode/src/scanner.c:162-172 | widths are positive but for the first and add up to the last mark minus the first |
| `EdgeScanner.FitsUnsigned` | qrcode/src/scanner.c:143-167 | for 8-bit samples and at most 2^20 of them no unsigned difference or product wraps |
| `EdgeScanner.ThresholdFades` | qrcode/src/scanner.c:133-157 | the threshold falls with the distance and is back at the minimum after eight widths |
| `EdgeScanner.ThresholdLine` | qrcode/src/scanner.c:133-157 | the threshold is on the straight line that reaches zero at eight widths, rounded up, until it gets to 4 and stays there |
| `EdgeScanner.LineEnds` | qrcode/src/scanner.c:184-204 | a line ends after two flushes on a rising edge and three on a falling one, finished exactly once |
| `EdgeScanner.WholeLine` | qrcode/src/scanner.c:184-221 | all that the decoder gets for a line: nothing, or a 0, positive widths whose sum is known, and a final 0, an odd number in all |
| `EdgeScanner.BehindTheBorder` | qrcode/src/img_scanner.c:629-636 | after the two flushes of a quiet border the last edge lies behind the next sample if and only if the line ended on a falling edge |
| `EdgeScanner.Scanner.constructor` | qrcode/src/scanner.c:86-93 | a new scanner is at the start of a line |
| `EdgeScanner.Scanner.Reset` | qrcode/src/scanner.c:100-107 | zbar_scanner_reset |
| `EdgeScanner.Scanner.CalcThresh` | qrcode/src/scanner.c:133-157 | calc_thresh: the faded threshold, and the one remembered |
| `EdgeScanner.Scanner.ProcessEdge` | qrcode/src/scanner.c:159-182 | process_edge: mark, width, and the answer of the decoder |
| `EdgeScanner.Scanner.Flush` | qrcode/src/scanner.c:184-204 | zbar_scanner_flush, with the answer of the decoder or ZBAR_NONE |
| `EdgeScanner.FlushedMeans` | qrcode/src/scanner.c:208-213 | new_scan returns the largest answer when none is negative; a negative answer gets through if and only if it is the last |
| `EdgeScanner.Scanner.NewScan` | qrcode/src/scanner.c:206-221 | zbar_scanner_new_scan flushes at most three times from any state whatever, returns what it makes of their answers, and starts afresh |
| `EdgeScanner.Scanner.QuietBorder` | qrcode/src/img_scanner.c:629-636 | quiet_border ends a scanned line exactly as the flushes it needs |
| `EdgeScanner.Scanner.Push` | qrcode/src/scanner.c:227-241 | the four-entry ring holds the averages of the last four positions; the new one is 7/32 of the one before plus 25/32 of the sample, rounded down |
| `EdgeScanner.Scanner.Update` | qrcode/src/scanner.c:271-289 | a new steepest slope sets the threshold to 14/32 of it, rounded, but at least 4, and the edge to the zero crossing |
| `EdgeScanner.Scanner.ScanY` | qrcode/src/scanner.c:223-299 | zbar_scan_y is the step on the window of averages of everything scanned; an edge that moves is at the zero crossing of the second difference, with one of the last two slopes; returns the answer of the decoder to a finished edge |
| `WidthWindow.SumSlides` | qrcode/src/decoder.c:240-241 | dropping the eighth width and taking the second moves a six-element sum by one |
| `WidthWindow.Decoder.constructor` | qrcode/src/decoder.c:42-99 | an empty window |
| `WidthWindow.Decoder.NewScan` | qrcode/src/decoder.c:144-150 | zbar_decoder_new_scan empties the window |
| `WidthWindow.Decoder.GetWidth` | qrcode/src/decoder.h:144-148 | get_width is the width `offset` elements back, modulo the ring |
| `WidthWindow.Decoder.GetColor` | qrcode/src/decoder.h:138-141 | get_color is the parity of the widths before, through any wrap of the 8-bit index |
| `WidthWindow.Decoder.Store` | qrcode/src/decoder.c:231-241 | storing a width keeps ring, index and s6 = sum of the six widths before it modulo 2^32 |
| `WidthWindow.Decoder.Advance` | qrcode/src/decoder.c:291 | the 8-bit index wraps without losing the ring |
| `WidthWindow.Decoder.CalcS` | qrcode/src/decoder.h:162-171 | calc_s is the sum of n widths modulo 2^32 |
| `WidthWindow.OrderUnique` | qrcode/src/decoder.h:219-244 | only one order of the offsets is sorted by width with ties by lower offset |
| `WidthWindow.UnpackPack` | qrcode/src/decoder.h:239-241 | four bits an offset lose nothing |
| `WidthWindow.Decoder.LeastLeft` | qrcode/src/decoder.h:226-238 | the inner loop always finds the narrowest element left, the lowest offset on ties |
| `WidthWindow.Decoder.DecodeSortN` | qrcode/src/decoder.h:219-244 | decode_sortn returns that order, packed into 32 bits |
| `WidthWindow.Sort3Sorts` | qrcode/src/decoder.h:197-215 | decode_sort3 orders by width; ties keep the order of offsets exactly when Untied holds |
| `WidthWindow.Sort3Agrees` | qrcode/src/decoder.h:197-244 | decode_sort3 equals decode_sortn if and only if w0 differs from w2 and w4, and w2 from w4 unless w0 is wider |
| `WidthWindow.Decoder.DecodeSort3` | qrcode/src/decoder.h:197-215 | decode_sort3 on the ring: a permutation of the three offsets by width, with that relation to decode_sortn |
| `ResultCache.CountedUp` | qrcode/src/img_scanner.c:309-326 | a count of zero comes u sightings after a restart, each within a second of the one before |
| `ResultCache.CountsUp` | qrcode/src/img_scanner.c:309-326 | the count starts over after two seconds, or after one while it is negative, and goes up with every sighting within a second of the one before |
| `ResultCache.CountsOn` | qrcode/src/img_scanner.c:309-326 | from zero on every sighting is counted until the symbol has been away for two seconds |
| `ResultCache.ZerosApart` | qrcode/src/img_scanner.c:309-326 | between two zero counts of one symbol lies a gap of at least two seconds between sightings |
| `ResultCache.AgesAgree` | qrcode/src/img_scanner.c:309-323 | the 32-bit age gives the same count as the true age if and only if it does not wrap into a short one |
| `ResultCache.PurgeKeeps` | qrcode/src/img_scanner.c:267-288 | a lookup drops only stale entries of other symbols |
| `ResultCache.PurgeDrops` | qrcode/src/img_scanner.c:267-288 | nothing older than four seconds is left in front of the match, and nothing is touched from there on |
| `ResultCache.RightCount` | qrcode/src/img_scanner.c:290-326 | the count given is the one that the times of the symbol alone ask for if and only if no entry age wraps |
| `ResultCache.StaysFaithful` | qrcode/src/img_scanner.c:290-326 | then the cache with its purging stays equivalent to the never-purged history |
| `ResultCache.RunCounts` | qrcode/src/img_scanner.c:267-328 | over every run of sightings all counts are those that the times of each symbol alone ask for if and only if no sighting meets an entry whose age 32 bits lose |
| `ResultCache.FrequentCounts` | qrcode/src/img_scanner.c:267-328 | so they are when the sightings of one symbol follow each other within 2^32 ms |
| `ResultCache.SightReplaces` | qrcode/src/img_scanner.c:290-327 | a sighting replaces the entry of its symbol, drops only stale ones, and gives the count of that entry |
| `ResultCache.FiftyDays` | qrcode/src/img_scanner.c:310-323 | a symbol seen again after exactly 2^32 ms is not reported although it should be |
| `SymbolPool.BandUnique` | qrcode/src/img_scanner.c:152-154 | the bands of the buckets do not overlap |
| `SymbolPool.Highest` | qrcode/src/img_scanner.c:219-227 | the search takes the highest bucket that is not empty up to the one for the size |
| `SymbolPool.Pool.BucketFor` | qrcode/src/img_scanner.c:152-154 | the first bucket whose limit exceeds the buffer |
| `SymbolPool.Pool.Put` | qrcode/src/img_scanner.c:152-166 | a buffer of 256 bytes or more is freed and its symbol goes to bucket 0 |
| `SymbolPool.Pool.Push` | qrcode/src/img_scanner.c:162-166 | a symbol becomes the head of the chain of its bucket; counts, chains and bands stay right |
| `SymbolPool.Pool.RecycleOne` | qrcode/src/img_scanner.c:129-166 | a referenced symbol stays outside with one reference less and no next, any other goes to one bucket after its components |
| `SymbolPool.Pool.RecycleSyms` | qrcode/src/img_scanner.c:123-169 | exactly the unreferenced symbols of a list, with components, enter the pool, each in one bucket; kept ones lose one reference and their next pointer, components of kept ones nothing |
| `SymbolPool.Pool.Init` | qrcode/src/img_scanner.c:249-264 | data_alloc is at least datalen, or there is no buffer |
| `SymbolPool.Pool.AllocSym` | qrcode/src/img_scanner.c:211-265 | the head of the largest suitable bucket or a new symbol, outside afterwards; bucket 0 never gives one up; both asserts hold |
| `ResultList.SymbolSet.constructor` | qrcode/src/symbol.c:367-372 | an empty set |
| `ResultList.SymbolSet.AddSym` | qrcode/src/img_scanner.c:330-352 | after any adds the chain of next pointers holds filtered symbols, then those to report, newest first in each part; tail is the last filtered one; nsyms counts the others |
| `ResultList.SymbolSet.FirstSymbol` | qrcode/src/symbol.c:399-406 | zbar_symbol_set_first_symbol is the first symbol to report, or null |
| `ResultList.SymbolSet.Clear` | qrcode/src/img_scanner.c:178-179 | the set is empty after recycle_syms |
| `ImageScanner.ImageScanner.constructor` | qrcode/src/img_scanner.c:469-499 | an empty scanner |
| `ImageScanner.ImageScanner.OnePlace` | qrcode/src/img_scanner.c:123-352 | every symbol ever allocated is in exactly one place: a bucket, the result list, the cache, a decoder, or with the application |
| `ImageScanner.ImageScanner.AllocSym` | qrcode/src/img_scanner.c:211-265 | a symbol goes from a bucket, or new, to the decoder |
| `ImageScanner.ImageScanner.Compose` | qrcode/src/qrcode/qrdectxt.c:401-410 | the components of a group become the set of a container that refers to each of them and is partial when one of them is |
| `ImageScanner.ImageScanner.Unlink` | qrcode/src/img_scanner.c:277-283 | an entry leaves the chain of the cache |
| `ImageScanner.ImageScanner.DropEntry` | qrcode/src/img_scanner.c:277-283 | a stale entry goes from the cache to a bucket |
| `ImageScanner.ImageScanner.CacheLookup` | qrcode/src/img_scanner.c:267-288 | cache_lookup on the chain: exactly the stale entries in front of the match go to the buckets, and the match is found |
| `ImageScanner.ImageScanner.NewEntry` | qrcode/src/img_scanner.c:294-307 | a new cache entry is taken from the allocator |
| `ImageScanner.ImageScanner.CountEntry` | qrcode/src/img_scanner.c:309-326 | consistency check and hysteresis on the entry |
| `ImageScanner.ImageScanner.CacheSym` | qrcode/src/img_scanner.c:290-328 | cache_sym is one more sighting, and gives the symbol its count |
| `ImageScanner.ImageScanner.EnableCache` | qrcode/src/img_scanner.c:612-621 | zbar_image_scanner_enable_cache: all entries go to the buckets |
| `ImageScanner.ImageScanner.AddSym` | qrcode/src/img_scanner.c:330-352 | add_sym: a symbol with components goes from the decoder to the result list, counted by the cache |
| `ImageScanner.ImageScanner.Recycle` | qrcode/src/img_scanner.c:123-169 | recycling a list leaves the cache and the other result sets as they are; what is kept outside is still referenced, and on no chain |
| `ImageScanner.ImageScanner.RecycleHand` | qrcode/src/qrcode/qrdectxt.c:440-440 | symbols that a decoder gives up go to the buckets |
| `ImageScanner.ImageScanner.RecycleSet` | qrcode/src/img_scanner.c:171-181 | recycle_syms, both results: a set still referenced is left alone; otherwise its free symbols go to the buckets, the others, still referenced, are left to the application, and the set is empty |
| `ImageScanner.ImageScanner.RecycleImage` | qrcode/src/img_scanner.c:183-209 | recycle_image: each of the two sets loses a reference and is emptied when that was the last; which set the scanner goes on with, and which one is destroyed; the references of all images stay counted |
| `ImageScanner.ImageScanner.TakeSet` | qrcode/src/img_scanner.c:668-678 | scanner and image share a result set, which no other image holds |
| `ImageScanner.ImageScanner.Begin` | qrcode/src/img_scanner.c:644-678 | the start of zbar_scan_image |
| `ImageScanner.ImageScanner.FindListed` | qrcode/src/img_scanner.c:434-447 | whether the result set lists these data already |
| `ImageScanner.ImageScanner.Report` | qrcode/src/img_scanner.c:393-467 | symbol_handler: new data are listed once, with the count of their sighting; anything else changes nothing |
| `ImageScanner.ImageScanner.TakeChain` | qrcode/src/qrcode/qrdectxt.c:178-197 | a chain of new symbols for the codes of a group, of type ZBAR_QRCODE and with the time of the scan, and one of type ZBAR_PARTIAL for each stretch of missing codes |
| `ImageScanner.TypesOf` | qrcode/src/qrcode/qrdectxt.c:178-197 | as many codes as were read, no two placeholders together, and one at all exactly when a code is missing |
| `ImageScanner.ImageScanner.Group` | qrcode/src/qrcode/qrdectxt.c:387-440 | the codes of a group are recycled, or listed as one symbol behind everything added before, with the count of its sighting, which the cache records: the code itself when it is alone, otherwise a container of exactly the chain; of type ZBAR_QRCODE, or ZBAR_PARTIAL when a code is missing |
| `ImageScanner.ImageScanner.RefSymbol` | qrcode/src/symbol.c:128-133 | zbar_symbol_ref on a listed symbol |
| `ImageScanner.ImageScanner.RefSet` | qrcode/src/symbol.c:386-392 | zbar_symbol_set_ref upwards |
| `ImageScanner.ImageScanner.Step` | qrcode/src/img_scanner.c:123-678 | each operation keeps the partition, the references and the cache |
| `ImageScanner.ImageScanner.Run` | qrcode/src/img_scanner.c:123-678 | over every sequence of scans of any images, reports, groups, cache switches and references, each symbol ever allocated is in exactly one place and the cache is the one that the sightings ask for |
| `CircularList.Node.constructor` | C/broadcast/listhead.h:13-15 | INIT_LIST_HEAD makes an empty list |
| `CircularList.NextPrev` | C/broadcast/listhead.h:4-6 | next and prev are inverse to each other and stay on the list |
| `CircularList.Rotate` | C/broadcast/listhead.h:4-6 | a list is a list from each of its nodes |
| `CircularList.RingUnique` | C/broadcast/listhead.h:4-6 | the pointers determine the list |
| `CircularList.AddBetween` | C/broadcast/listhead.h:23-31 | __list_add inserts between neighbours |
| `CircularList.Add` | C/broadcast/listhead.h:41-44 | list_add: the new node comes first |
| `CircularList.AddTail` | C/broadcast/listhead.h:54-57 | list_add_tail: the new node comes last |
| `CircularList.DelInit` | C/broadcast/listhead.h:66-92 | list_del_init: the list without the entry, and the entry a list of its own |
| `CircularList.IsEmpty` | C/broadcast/listhead.h:98-101 | list_empty |
| `CircularList.Splice` | C/broadcast/listhead.h:108-122 | list_splice: what one list holds comes before what the other holds |
| `EpollRegistry.OnTheList` | C/broadcast/BREpoll.cpp:75-125 | after any history no descriptor is listed twice, and it is listed if and only if it has been registered since it was last unregistered |
| `EpollRegistry.Registry.Agreement` | C/broadcast/BREpoll.cpp:90-100 | for a listed descriptor the list holds the first processor that registered it since then and the kernel the last; they agree if and only if these are the same |
| `EpollRegistry.Registry.Find` | C/broadcast/BREpoll.cpp:50-62 | findProcessListLocked walks the whole list |
| `EpollRegistry.Registry.Regist` | C/broadcast/BREpoll.cpp:75-105 | regist: refused for a negative descriptor; a new node at the tail for a new one; for a listed one the node keeps its processor and only the kernel gets the new one |
| `EpollRegistry.Registry.Unregist` | C/broadcast/BREpoll.cpp:107-125 | unregist removes the node of the descriptor and the kernel entry, or nothing |
| `EpollRegistry.Registry.constructor` | C/broadcast/BREpoll.cpp:13-24 | an empty registry |

## Left out

- Floating point: correlations, energies and thresholds of the codebook and pitch searches are exact reals, so rounding is not modelled; the normalising factors of `set_sign12k2`, and the correlations and the interpolation of the pitch search, are arbitrary inputs.
- Tables from headers that are not part of this model: the rows of the mode-dependent pitch parameters (`IsParm`), the Gray table as a permutation of 0..7 (`IsGray`), and the bit order, table-of-contents and block-size tables (`AreTables`) are hypotheses.
- CodebookSearch.Search: the optimality part is stated for matrices whose quadratic forms are positive; `FilteredCode.PositiveExactly` says when they are, and that two positions lie on each track is stated for all.
- PulseCoding.Code10: the memory before the impulse response, which the source keeps zero and reads for times before a pulse, is left out; those terms are zero.
- EdgeScanner.FitsUnsigned: positions and widths are unbounded integers elsewhere; this lemma says for which lines that is exact.
- Samples scanned after a flush without a new scan: `quiet_border` never does that, and `BehindTheBorder` says what would go wrong.
- The symbology decoders between `Decoder.Store` and `Decoder.Advance`: what they answer to each width is an arbitrary input of the scanner.
- ResultCache.RunCounts: the uncertainty of a symbol type is a constant that is not negative, and the clock does not go backwards.
- SymbolPool.Pool.RecycleSyms: that a component set is referenced once and a referenced symbol owns data, which the source asserts, is required; points, quality, orientation and statistics are not modelled.
- ImageScanner.ImageScanner.Run: the application takes references but does not give any back, since what it releases last is freed and leaves the scanner; a reference to a component, which the source does not support, is not taken; nor are `zbar_image_scanner_destroy`, result sets that the application moves between images, and the failure of an allocation modelled.
- ImageScanner.ImageScanner.Group: how the text of a group is made, and where the data of its components point into it; when making it fails, `read` stands for the codes up to that one. That a group has a code that was read is not required.
- The filter and the merging of EAN add-ons at the end of `zbar_scan_image`, which concern symbologies that the configured build does not enable.
- EpollRegistry.Registry.Regist: the missing return value on success and the event mask are not modelled, nor are failing system calls, descriptors closed behind the registry's back, and the event loop; a processor's descriptor does not change, processors are not deleted, and a list node and its `list_head` are one object.
- `list_del`, which leaves the entry with null pointers, and the iteration macros other than the search.
- AES hardware paths, ROM tables and the self-test; AES tables are a heap object instead of static arrays.
- AesModes.CryptCbc: in one buffer the output may not start inside the input, where the loops would overwrite input that they have not read; the same holds for CFB128 and CTR.
- The alternative IF2 and ETSI frame packers, voice activity detection, LPC analysis and gain quantisation.
- `base64_encode`, image access, video, fonts, sockets and all code in other languages: libraries, devices and small maps.
