# Verified models of the device SDK's algorithms

The SDK and the libraries it carries hold a number of self-contained algorithms. This project
models them in Dafny, one module for each source file or layer of it, and proves what they are for.

- **AES** (`Gf256`, `GfPowers`, `Fips197`, `AesTables`, `Aes`, `AesVector`): the table generator, both
  key schedules and the table-driven rounds, against the byte-wise definition of FIPS 197. That 3
  generates the field, that the S-boxes are inverse bijections and that the two mixing matrices are
  inverse are proved from the field's arithmetic. The definition itself is held to laws on bytes and
  words and to the worked example of the standard, down to the cipher text.
- **SHA-256, HMAC and MD5** (`BlockHash`, `Fips180`, `Sha256`, `Sha256Constants`, `Sha256Vector`,
  `Rfc1321`, `Md5`, `Md5Vector`): streaming contexts with a carried two-word length, against one-shot
  specifications written from FIPS 180-4, RFC 2104 and RFC 1321. The constants are proved to be the
  roots of primes they are named after, and both specifications to give the standards' digests of abc.
- **Blowfish** (`BlowfishModes`, `Blowfish`, `BlowfishCalls`, `BlowfishLaws`): the Feistel network for
  any subkeys and S-boxes, the CBC, CFB64 and CTR calls as runs of state machines whose state goes
  from call to call, and each of them written out by index.
- **Text differences** (`EditDistance`, `UnifiedDiff`, `DiffListing`): the edit table, the script read
  back from it and unified-diff hunks, against a strict patch reader and against the script itself.
- **The portable regex matcher** (`SimpleRegex`): validator and mutually recursive matcher, against a
  grammar and a declarative language.
- **JSON scanner and path index** (`JsonParser`, `JsonText`, `JsonArray`, `JsonToken`): the cursor
  scanner, a printer for the documents it can read, and the dotted-key lister and lookup.
- **HTTP buffers** (`HttpTransfer`): bounded send and receive buffers over a network that reads and
  writes as much as it likes, with what is delivered and when a transfer succeeds.
- **Codecs** (`Base64`, `Asn1`, `CodecVectors`): encoders and decoders with their exact lengths.
- **Linked structures** (`LinkedList`, `Ring`): pointer lists against sequences of nodes.
- **Substring replacement** (`ReplaceSubstr`): the in-place loop against leftmost replacement.

`Bytes`, `Words` and `Wrappers` hold what the modules share.

Where the code changes state, the model does too: contexts, tables, hunks, nodes and buffers are
classes and arrays, loops are loops, and each method is tied to a specification function. What the
algorithm promises is then proved about those functions as lemmas.

## Where the code and its promises part

Each of these is stated in the model as a counterexample together with the exact condition, or as an
exact condition alone.

- `CalculateOptimalEdits` is documented as optimal: all edits cost the same, with replace having lower
  priority, that is the fewest edits and among those the fewest replaces. It takes Replace when Add and
  Remove start from cells that are no dearer than the diagonal one, and `EditDistance.NotAlwaysOptimal`
  gives an input on which that costs an edit too many. For every input the returned edits are as promised
  exactly when they weigh what the plain three-way minimum gives (`EditDistance.ResultPromisedIff`).
  With fewer than 100000 lines on either side the code's own costs decide the same thing
  (`EditDistance.PromisedIffLeast`), and all edits of the table, for every pair of prefixes, are as
  promised exactly when no cell has such a tie (`EditDistance.PromisedIffTieFree`). A tie beside the
  path does no harm to the returned edits (`EditDistance.TieElsewhere`), and having the fewest edits,
  without regard to replaces, can survive a tie on it (`EditDistance.FewestDespiteTie`); when it does is
  said by `EditDistance.ResultFewestIff`.
- The fewest edits are not the fewest changed lines: `DiffListing.SwappedLines` is an input whose script
  has as few edits as any and whose diff changes four lines where two do. A diff changes as few lines
  as any patch exactly when edits and replaces together weigh what the plain recurrence gives with a
  replacement counted twice: `DiffListing.DiffFewestIff`.
- `CreateUnifiedDiff` with a context of 0 returns nothing, so it patches only equal texts:
  `UnifiedDiff.CreateUnifiedDiff`.
- `RE::FullMatch` is not anchored at the end when the regex ends in an escaped dollar:
  `SimpleRegex.FullMatchTooLong` and `SimpleRegex.FullMatchIsWholeIff`.
- `json_get_value_by_name` compares only a prefix of each key, so an earlier longer key hides a
  later shorter one: `JsonToken.ShadowedMember` and `JsonToken.KeysFindThemselvesIff`.
- `LITE_json_value_of` does not stop at the end of an inner object, so a key missing there is taken from
  the members behind it: `JsonToken.FoundOutside`. Where any path leads is `JsonToken.PathResolved`.
- `utils_md5_update` counts only the low 32 bits of an input's length: `Md5Stream.OneCallExact` and
  `Md5Stream.LengthFieldExact`.
- `utils_hmac_sha256` refuses keys over 64 bytes where RFC 2104 hashes them (`Fips180.Hmac`):
  `Sha256Stream.HmacSha256`. Passing the key's digest instead gives the standard's value:
  `Fips180.HashedKey`.
- `mbedtls_asn1_write_octet_string` casts the size to an int: the encoding is written and its length
  returned exactly for data of at most INT_MAX - 6 bytes: `Asn1.WritesEncodingIff`.
- `_http_get_response_body` loses bytes that came along with the header when they do not fit the
  response buffer: `HttpTransfer.HttpClientData.ReceiveAll`.

## Model

| member | source | states |
|---|---|---|
| Aes.EncryptThenDecrypt | external_libs/mbedtls/library/aes.c:484-820 | for every 128, 192 or 256 bit key and every block, encrypting in place under the encryption schedule and then decrypting in place under the decryption schedule leaves the block as it was, whether or not the tables were filled before |
| Fips197.EqInvCipherInverts | external_libs/mbedtls/library/aes.c:713-820 | the equivalent inverse cipher under the converted round keys undoes the cipher, for any round keys and any number of rounds of at least one (section 5.3.5 of FIPS 197) |
| Fips197.EqInvCipherIsInvCipher | external_libs/mbedtls/library/aes.c:770-820 | the order of steps that the decryption rounds use computes the straightforward inverse cipher of section 5.3 of FIPS 197 on every state |
| Fips197.RoundsUnwind | external_libs/mbedtls/library/aes.c:686-707 | after r inverse rounds the state is the one before the last r forward rounds, up to byte substitution and row shift |
| Fips197.SBoxInverts | external_libs/mbedtls/library/aes.c:417-432 | the S-box (field inverse, then the affine map) and the inverse S-box are inverse bijections on all bytes |
| Fips197.MixColumnInverts | external_libs/mbedtls/library/aes.c:437-462 | the matrix 0E 0B 0D 09 undoes the matrix 02 03 01 01 on every column |
| Fips197.InvMixColumnAdd | external_libs/mbedtls/library/aes.c:640-649 | inverse column mixing distributes over adding a round key; this is why the decryption schedule converts the middle round keys |
| GfPowers.NoShortPeriod | external_libs/mbedtls/library/aes.c:398-403 | no power of 3 below the 255th is 1 in the field of 256 elements |
| GfPowers.PowSurjective | external_libs/mbedtls/library/aes.c:398-403 | every non-zero byte is a power of 3 with an exponent of 1 to 255, so the log table has no gap |
| GfPowers.PowAdd | external_libs/mbedtls/library/aes.c:384-385 | the product of two powers of 3 is the power of the sum: what the table product uses |
| GfPowers.InverseUnique | external_libs/mbedtls/library/aes.c:417-422 | a byte has exactly one field inverse (0 for 0), so the byte the S-box loop starts from is determined |
| AesTables.Tables.GeneratePowers | external_libs/mbedtls/library/aes.c:392-403 | the repeated multiplication by 3 fills pow with the powers of 3 and log with their exponents, log of 1 ending as 255 |
| AesTables.Tables.GenerateRcon | external_libs/mbedtls/library/aes.c:408-412 | the round constants are the first ten powers of 2 |
| AesTables.RotateAndAdd | external_libs/mbedtls/library/aes.c:424-428 | four rotations added up, and 63, are the affine map of section 5.1.1 of FIPS 197 on the field inverse |
| Fips197.AffineRotates | external_libs/mbedtls/library/aes.c:424-428 | the affine map of section 5.1.1 of FIPS 197, defined bit by bit, is the byte, its four rotations and 63 added up |
| Fips197.RotWordTurns | external_libs/mbedtls/library/aes.c:533-537 | the word turned as section 5.2 of FIPS 197 turns it is, as a number, shifted left by 8 bits with the top byte coming in below |
| Fips197.ScheduleBytes | external_libs/mbedtls/library/aes.c:527-588 | byte r of each word of the key expansion: the byte Nk words before, added to the byte above it, or on every Nk-th word to the S-box of byte (r + 1) mod 4 of the word above with the round constant on byte 0, or to the S-box of the same byte in the middle of a long key |
| Fips197.RowsShift | external_libs/mbedtls/library/aes.c:663-684 | row r of column c comes from column (c + r) mod 4 |
| Fips197.RowsMix | external_libs/mbedtls/library/aes.c:439-450 | row r of a mixed column is twice that row, three times the next, and the other two |
| AesVector.ExampleCipher | external_libs/mbedtls/library/aes.c:713-763 | the example of appendix C.1 of FIPS 197: the key 000102..0f takes the block 00112233..ff to 69c4e0d86a7b0430d8cdb78070b4c55a |
| AesVector.EncryptExample | external_libs/mbedtls/library/aes.c:484-763 | the context itself, its schedule set and its encryption called, gives these 16 bytes |
| AesTables.Tables.GenerateSBoxes | external_libs/mbedtls/library/aes.c:417-432 | FSb and RSb become the S-box and its inverse at every byte |
| AesTables.TableProduct | external_libs/mbedtls/library/aes.c:385 | the product by logarithms, with its test for zero, is the field product of the shift-and-add definition |
| AesTables.ForwardEntries | external_libs/mbedtls/library/aes.c:439-450 | the four words written at an index of FT0 to FT3 are the columns that one substituted byte adds to a mixed column |
| AesTables.ReverseEntries | external_libs/mbedtls/library/aes.c:452-461 | the four words written at an index of RT0 to RT3 are the columns that one byte adds to an inversely mixed column |
| AesTables.MixTermsSum | external_libs/mbedtls/library/aes.c:437-462 | the contributions of the four bytes of a column add up to the mixed column, in both directions |
| AesTables.Tables.Generate | external_libs/mbedtls/library/aes.c:389-463 | all eleven tables hold what FIPS 197 says, at every index |
| Aes.ForwardLine | external_libs/mbedtls/library/aes.c:665-668 | four table words and a round key word added up are one substituted, mixed and keyed column |
| Aes.ReverseLine | external_libs/mbedtls/library/aes.c:688-691 | the same for the inverse substitution and inverse mixing |
| Aes.FinalLine | external_libs/mbedtls/library/aes.c:735-739 | the last round, by bytes of the S-box, is substitution and key addition without mixing |
| Aes.AesContext.ForwardRound | external_libs/mbedtls/library/aes.c:663-684 | a table round is AddRoundKey after MixColumns after ShiftRows after SubBytes |
| Aes.AesContext.ReverseRound | external_libs/mbedtls/library/aes.c:686-707 | a reverse table round is AddRoundKey after InvMixColumns after InvShiftRows after InvSubBytes |
| Aes.AesContext.ForwardRounds | external_libs/mbedtls/library/aes.c:727-733 | the loop of paired rounds and the odd round behind it are all rounds but the last |
| Aes.AesContext.ReverseRounds | external_libs/mbedtls/library/aes.c:784-790 | the same for the equivalent inverse cipher |
| Aes.AesContext.Encrypt | external_libs/mbedtls/library/aes.c:713-763 | the output block is the FIPS 197 cipher of the input block under the stored round keys, also when input and output are one buffer |
| Aes.AesContext.Decrypt | external_libs/mbedtls/library/aes.c:770-820 | the output block is the equivalent inverse cipher of the input block under the stored round keys |
| Aes.SubRotRcon | external_libs/mbedtls/library/aes.c:533-537 | a rotated, substituted word with the round constant, built byte by byte |
| Aes.AesContext.Expand128 | external_libs/mbedtls/library/aes.c:531-542 | 44 words of the key expansion of section 5.2 of FIPS 197 from a 4-word key |
| Aes.AesContext.Expand192 | external_libs/mbedtls/library/aes.c:547-560 | 54 words from a 6-word key |
| Aes.AesContext.Expand256 | external_libs/mbedtls/library/aes.c:565-586 | 64 words from an 8-word key, with the extra substitution in the middle of each turn |
| Aes.AesContext.SetkeyEnc | external_libs/mbedtls/library/aes.c:484-591 | for the three key sizes the buffer holds the key expansion and nr is right; any other size is refused and changes nothing |
| Aes.InvertWord | external_libs/mbedtls/library/aes.c:644-647 | reverse tables indexed through the S-box are inverse column mixing of a key word |
| Aes.AesContext.InvertKeys | external_libs/mbedtls/library/aes.c:633-654 | walking the schedule backwards copies the outer round keys and converts the others |
| Aes.AesContext.SetkeyDec | external_libs/mbedtls/library/aes.c:598-660 | the buffer holds the round keys of the equivalent inverse cipher; other key sizes are refused and change nothing |
| Aes.BlockStateInjective | external_libs/mbedtls/library/aes.c:722-725 | two blocks that load to the same state are the same 16 bytes |
| Sha256Stream.HashParts | src/utils/utils_sha2.c:81-277 | however a message is cut into updates of less than 2^32 bytes each, starts, the updates and finish give the FIPS 180-4 digest of the whole message |
| Sha256Stream.HmacSha256 | src/utils/utils_sha2.c:290-330 | two passes over one reused context give H(K^opad, H(K^ipad, m)) of section 2 of RFC 2104 for keys of at most 64 bytes; a null argument or a longer key leaves the output alone |
| Sha256Stream.Sha256Context.Update | src/utils/utils_sha2.c:202-238 | the context that has absorbed a message absorbs the message and the input: state, partial block and 64-bit count all agree |
| Sha256Stream.Sha256Context.Finish | src/utils/utils_sha2.c:247-277 | the output is the digest of all absorbed bytes, and bytes behind it are untouched |
| Sha256Stream.Sha256Context.Starts | src/utils/utils_sha2.c:75-94 | the context stands for the empty message |
| Sha256Stream.Sha256Context.Process | src/utils/utils_sha2.c:140-201 | one block with the rolled rounds is the compression function of section 6.2.2 of FIPS 180-4 |
| Sha256Stream.Sha256Context.ProcessUnrolled | src/utils/utils_sha2.c:140-201 | one block with the unrolled rounds is the same compression function |
| Sha256Stream.RolledRounds | src/utils/utils_sha2.c:151-169 | 64 rounds with the eight words moved along each time, on a schedule filled on demand |
| Sha256Stream.UnrolledRounds | src/utils/utils_sha2.c:171-195 | the same 64 rounds, eight at a time with the arguments turned instead of the words moved |
| Sha256Stream.Step | src/utils/utils_sha2.c:127-138 | the macro that changes two of eight words is one round of the standard with the other six renamed |
| Sha256Stream.F0IsMaj | src/utils/utils_sha2.c:124 | the rewritten majority function equals Maj on all words |
| Sha256Stream.F1IsCh | src/utils/utils_sha2.c:125 | the rewritten choice function equals Ch on all words |
| Sha256Stream.HashOnce | src/utils/utils_sha2.c:279-288 | the one-call form gives the digest of its input |
| Fips180.LengthField | src/utils/utils_sha2.c:253-258 | the last eight bytes of the padded message count its bits exactly when the message has fewer than 2^61 bytes |
| Sha256Constants.KIsCubeRoot | src/utils/utils_sha2.c:96-114 | each of the 64 constants is the first 32 fractional bits of the cube root of the prime of its number |
| Sha256Constants.InitialHashIsSquareRoots | src/utils/utils_sha2.c:82-90 | each of the eight starting words is the first 32 fractional bits of the square root of the prime of its number |
| Sha256Constants.PrimesInOrder | src/utils/utils_sha2.c:96-114 | the 64 numbers used there are the first 64 primes, in order and without a gap |
| Sha256Vector.AbcDigest | src/utils/utils_sha2.c:140-277 | the digest of abc is ba7816bf..f20015ad, byte by byte |
| Sha256Stream.ShiftsAreSigmas | src/utils/utils_sha2.c:115-122 | the four macros of shifts are the sigma functions of section 4.1.2 of FIPS 180-4, rotations |
| Fips180.HmacBlocks | src/utils/utils_sha2.c:290-330 | the code is two hashes, of the key block xored byte by byte with 36 hexadecimal before the text and with 5c before the first digest |
| BlockHash.FoldComplete | src/utils/utils_sha2.c:221-227 | completing a buffered partial block is one more block of the concatenated message |
| BlockHash.FoldPartial | src/utils/utils_sha2.c:235-237 | bytes that do not complete a block change only the partial block |
| BlockHash.FoldConcat | src/utils/utils_sha2.c:229-233 | hashing whole blocks first and the rest from there is hashing the concatenation |
| BlockHash.ZeroCountIsLeast | src/utils/utils_sha2.c:260-261 | the padding has the fewest zero bytes that leave eight bytes of the last block for the length |
| BlockHash.CarryCounts | src/utils/utils_sha2.c:214-219 | two 32-bit words with a carry count bytes modulo 2^64 |
| BlockHash.BitCount | src/utils/utils_sha2.c:253-255 | the two shifted words are the high and low words of eight times the byte count |
| Md5Stream.FileMd5 | src/utils/utils_httpc.c:533-559 | a file hashed chunk by chunk has the RFC 1321 digest of its whole contents |
| Md5Stream.Md5Context.Starts | src/utils/utils_md5.c:82-91 | the context stands for the empty message |
| Md5Stream.Md5Context.Update | src/utils/utils_md5.c:219-255 | the absorbed bytes grow by the input; the length counter grows by the input length modulo 2^32, which is where the code leaves the standard |
| Md5Stream.Md5Context.Finish | src/utils/utils_md5.c:267-290 | the output is the section 3 digest of RFC 1321 with the counted length in the length field |
| Md5Stream.LengthFieldExact | src/utils/utils_md5.c:272-280 | the padding is the one of the standard if and only if the counted and the true length agree modulo 2^61 |
| Rfc1321.LengthField | src/utils/utils_md5.c:272-280 | the last eight bytes of the padded message are the bit count modulo 2^64, least significant byte first |
| Md5Stream.OneCallExact | src/utils/utils_md5.c:231-236 | one update gives the padding of the standard if and only if the input length modulo 2^61 is below 2^32 |
| Md5Stream.HashOnce | src/utils/utils_md5.c:296-305 | the one-call form gives the digest with the counted length, and so the standard digest for inputs below 2^32 bytes |
| Md5Stream.Md5Context.Process | src/utils/utils_md5.c:93-214 | 64 written-out steps are the four rounds of section 3.4 of RFC 1321, added to the registers |
| Md5Stream.Round1 | src/utils/utils_md5.c:126-143 | the sixteen lines of round 1, with turning registers, are its sixteen operations |
| Md5Stream.Round2 | src/utils/utils_md5.c:147-164 | the same for round 2 |
| Md5Stream.Round3 | src/utils/utils_md5.c:168-185 | the same for round 3 |
| Md5Stream.Round4 | src/utils/utils_md5.c:189-206 | the same for round 4 |
| Md5Stream.P | src/utils/utils_md5.c:114-119 | the macro is one operation of the standard with the registers renamed |
| Md5Stream.MacroIsAuxiliary | src/utils/utils_md5.c:126-189 | the four round functions, F and G rewritten, equal those of section 3.4 of RFC 1321 on all words |
| Md5Vector.AbcDigest | src/utils/utils_md5.c:93-290 | the digest of abc is 900150983cd24fb0d6963f7d28e17f72, byte by byte |
| BlowfishCalls.CbcBothWays | external_libs/mbedtls/library/blowfish.c:261-308 | one side encrypts whole blocks in several CBC calls and the other decrypts in calls cut between other blocks: the text comes back, both vectors end equal, and the cipher text is that of one run |
| BlowfishCalls.CfbBothWays | external_libs/mbedtls/library/blowfish.c:315-356 | the same for CFB64 and texts of any length cut anywhere |
| BlowfishCalls.CtrBothWays | external_libs/mbedtls/library/blowfish.c:363-393 | the same for CTR, counter, stream block and offset ending equal |
| BlowfishCalls.CfbCalls | external_libs/mbedtls/library/blowfish.c:315-356 | several calls that hand on vector and offset are the runs of the parts one after another |
| BlowfishCalls.CtrCalls | external_libs/mbedtls/library/blowfish.c:363-393 | the same for counter, stream block and offset |
| BlowfishCalls.CbcCalls | external_libs/mbedtls/library/blowfish.c:261-308 | the same for the vector, by blocks |
| Blowfish.CbcRoundTrip | external_libs/mbedtls/library/blowfish.c:261-308 | CBC decryption gives back the plain blocks and ends with the same vector, even when the two sides cut the data into different calls |
| Blowfish.CfbRoundTrip | external_libs/mbedtls/library/blowfish.c:315-356 | CFB64 decryption gives back the plain bytes and ends in the same state for every length and every cutting on either side |
| Blowfish.CtrRoundTrip | external_libs/mbedtls/library/blowfish.c:363-393 | the CTR call undoes itself from the same start for every length and every cutting on either side |
| BlowfishModes.SplitsAgree | external_libs/mbedtls/library/blowfish.c:261-393 | any machine whose one-step decryption undoes its one-step encryption also does so over any two cuttings of the data into calls |
| BlowfishModes.RunPartsIsRun | external_libs/mbedtls/library/blowfish.c:315-393 | the state handed from call to call makes calls on parts equal to one call on the whole |
| BlowfishModes.RunInverts | external_libs/mbedtls/library/blowfish.c:261-393 | a one-step inverse is an inverse over whole runs, with equal end states |
| BlowfishModes.NetworkInverts | external_libs/mbedtls/library/blowfish.c:100-156 | a Feistel network undone by itself with its keys backwards, for any round function and any number of keys from 2 |
| BlowfishModes.CbcUndoes | external_libs/mbedtls/library/blowfish.c:276-305 | one CBC block is undone when the block functions are inverse |
| BlowfishModes.CfbUndoes | external_libs/mbedtls/library/blowfish.c:328-350 | one CFB byte is undone with the encryption function alone |
| BlowfishModes.CtrUndoes | external_libs/mbedtls/library/blowfish.c:374-388 | one CTR byte is undone by the same step |
| BlowfishModes.SuccessorCounts | external_libs/mbedtls/library/blowfish.c:380-382 | the counter, read as a number, goes up by one and wraps to 0 at the end |
| Blowfish.BlocksInvert | external_libs/mbedtls/library/blowfish.c:100-255 | decrypting a block of bytes undoes encrypting it, for any subkeys and S-boxes |
| Blowfish.BlocksInjective | external_libs/mbedtls/library/blowfish.c:261-308 | data cut into 8-byte blocks is determined by the blocks, so the block round trip is one about bytes |
| Blowfish.Increment | external_libs/mbedtls/library/blowfish.c:380-382 | the loop with an early exit is the big-endian successor |
| Blowfish.BlowfishContext.RoundF | external_libs/mbedtls/library/blowfish.c:81-98 | the four table words combined by addition, exclusive or and addition modulo 2^32 |
| Blowfish.BlowfishContext.BlowfishEnc | external_libs/mbedtls/library/blowfish.c:100-127 | the loop with its swaps is the network with the subkeys in order |
| Blowfish.BlowfishContext.BlowfishDec | external_libs/mbedtls/library/blowfish.c:129-156 | the loop down is the network with the subkeys backwards |
| Blowfish.BlowfishContext.CryptEcb | external_libs/mbedtls/library/blowfish.c:232-255 | one block encrypted or decrypted by mode |
| Blowfish.BlowfishContext.CryptCbc | external_libs/mbedtls/library/blowfish.c:261-308 | the output and the new vector are those of a CBC run over the blocks, in place too; a length that is no multiple of 8 is refused and changes nothing |
| Blowfish.BlowfishContext.CryptCfb64 | external_libs/mbedtls/library/blowfish.c:315-356 | the output, the new vector and the new offset are those of a CFB run over the bytes |
| Blowfish.BlowfishContext.CryptCtr | external_libs/mbedtls/library/blowfish.c:363-393 | the output, counter, stream block and offset are those of a CTR run over the bytes |
| BlowfishLaws.RoundFunctionOfBytes | external_libs/mbedtls/library/blowfish.c:81-98 | the round function of a word given by its bytes: the first byte indexes the first box, and so on |
| BlowfishLaws.HalvesOfBlock | external_libs/mbedtls/library/blowfish.c:232-255 | the first four bytes of a block are its left half and the last four its right half, read and written alike |
| BlowfishLaws.NetworkStates | external_libs/mbedtls/library/blowfish.c:100-127 | a state for each round, each from the one before by one key, and the crossing of the halves with the last two keys |
| BlowfishLaws.CbcChains | external_libs/mbedtls/library/blowfish.c:261-308 | cipher block i is the cipher of plain block i xored with cipher block i - 1, the vector before the first |
| BlowfishLaws.CbcUnchains | external_libs/mbedtls/library/blowfish.c:261-308 | plain block i is the inverse cipher of cipher block i xored with cipher block i - 1 |
| BlowfishLaws.CfbByIndex | external_libs/mbedtls/library/blowfish.c:315-356 | cipher byte i is plain byte i xored with byte n + i of a key stream whose blocks are ciphers of the 8 cipher bytes before, for any starting offset n |
| BlowfishLaws.CtrByIndex | external_libs/mbedtls/library/blowfish.c:363-393 | output byte i is input byte i xored with byte n + i of a key stream whose blocks are ciphers of successive counters, for any starting offset n |
| BlowfishLaws.LaterCounts | external_libs/mbedtls/library/blowfish.c:380-382 | the counter m blocks later is m more, less the times it has wrapped around |
| UnifiedDiff.CreateUnifiedDiff | external_libs/googletest/src/gtest.cc:1201-1261 | the hunks, applied strictly (in order, not overlapping, matching text, header starts and counts exact), patch left into right if and only if context is at least 1 or the texts are equal; each hunk has removals before additions, at most context common lines at its ends, and no common run that should have split it; with the lines between them the hunks tell exactly the moves of the script for left and right, on the old side and on the new |
| DiffListing.ListingIsScript | external_libs/googletest/src/gtest.cc:1133-1261 | the hunks with the lines between them put back are the one listing of the script in which removals come before additions: both files, the moves and the order determine every line |
| DiffListing.ListingSides | external_libs/googletest/src/gtest.cc:1173-1185 | for any hunks that apply, the listing without additions is the left file and without removals the patched one |
| DiffListing.ListingDetermined | external_libs/googletest/src/gtest.cc:1133-1149 | two listings with removals before additions, the same sides and the same moves are the same |
| DiffListing.LinesCounted | external_libs/googletest/src/gtest.cc:1237-1250 | the removed lines of all hunks number the removes and replaces of the script, the added lines its adds and replaces |
| DiffListing.HeaderNumbers | external_libs/googletest/src/gtest.cc:1173-1185 | a header names the number, from 1, of the first line of its hunk in each file and how many lines the hunk has there, and leaves out a side that is unchanged |
| DiffListing.TightMeans | external_libs/googletest/src/gtest.cc:1227-1235 | fewer than 2 * context common lines lie between any two neighbouring changed lines of a hunk |
| DiffListing.NoHunksIff | external_libs/googletest/src/gtest.cc:1253-1255 | nothing is printed exactly for equal files |
| DiffListing.FewestLinesIff | external_libs/googletest/src/gtest.cc:1201-1261 | a number bounds the changed lines of every patch between two files from below exactly when it is at most the plain recurrence with a replacement counted twice |
| DiffListing.DiffFewestIff | external_libs/googletest/src/gtest.cc:1201-1261 | the diff changes a line for each edit and one more for each replace, and no patch changes fewer exactly when that is the plain recurrence |
| DiffListing.SwappedLines | external_libs/googletest/src/gtest.cc:1053-1067 | two lines swapped: as few edits as any script, four changed lines where two would do |
| DiffListing.Diff | external_libs/googletest/src/gtest.cc:1201-1261 | every result with context is such a diff, and is empty exactly for equal files |
| UnifiedDiff.NextHunk | external_libs/googletest/src/gtest.cc:1208-1259 | one turn of the outer loop takes the patch from one common position to the next, or finds nothing but matches to the end |
| UnifiedDiff.ExtendHunk | external_libs/googletest/src/gtest.cc:1223-1251 | the inner loop pushes exactly the lines of left and right it walks over, and stops at the end or after context common lines |
| UnifiedDiff.ClosingStops | external_libs/googletest/src/gtest.cc:1227-1235 | when the loop stops before the end it has pushed exactly context common lines |
| UnifiedDiff.OpenHunk | external_libs/googletest/src/gtest.cc:1216-1221 | a hunk starts with up to context common lines before the edit and the line numbers that belong to them |
| UnifiedDiff.FirstEdit | external_libs/googletest/src/gtest.cc:1209-1214 | skipping matches moves both sides over equal lines to the first edit |
| UnifiedDiff.PushEdit | external_libs/googletest/src/gtest.cc:1237-1250 | an edit grows the two sides of the hunk by the lines it consumes, a replacement as a removal and an addition |
| UnifiedDiff.HunkApplies | external_libs/googletest/src/gtest.cc:1173-1185 | a hunk with these sides and this header carries a patch reader from its first to its last line |
| UnifiedDiff.Hunk.constructor | external_libs/googletest/src/gtest.cc:1126-1131 | a new hunk has no lines |
| UnifiedDiff.Hunk.PushLine | external_libs/googletest/src/gtest.cc:1133-1149 | a removal goes before the additions still waiting; either way each side of the hunk grows by its line |
| UnifiedDiff.Hunk.FlushEdits | external_libs/googletest/src/gtest.cc:1164-1167 | waiting removals and then additions join the lines, and nothing waits any more |
| UnifiedDiff.Hunk.PrintTo | external_libs/googletest/src/gtest.cc:1151-1185 | the printed hunk holds all pushed lines, with header parts only for sides that changed and counts equal to the lines of each side |
| UnifiedDiff.RemoveBeforeAdds | external_libs/googletest/src/gtest.cc:1133-1149 | moving a removal in front of additions leaves both sides of the hunk as if it had come last |
| UnifiedDiff.StepFits | external_libs/googletest/src/gtest.cc:1241-1250 | at each place of a valid script the next move finds its lines there, and equal ones for a match |
| UnifiedDiff.InternalStrings.GetId | external_libs/googletest/src/gtest.cc:1088-1093 | equal lines get equal numbers and new lines new ones |
| UnifiedDiff.InternalStrings.GetIds | external_libs/googletest/src/gtest.cc:1102-1114 | every line has its number, and earlier numbers stay |
| UnifiedDiff.PathRenamed | external_libs/googletest/src/gtest.cc:1102-1116 | the script depends only on which lines are equal, so numbering the lines does not change it |
| UnifiedDiff.CellsRenamed | external_libs/googletest/src/gtest.cc:1102-1116 | the same for every cell of the table |
| UnifiedDiff.CalculateOptimalEdits | external_libs/googletest/src/gtest.cc:1102-1116 | the script for lines is valid and costs the last cell of their own table |
| EditDistance.CalculateOptimalEdits | external_libs/googletest/src/gtest.cc:1026-1079 | the walk back through the moves gives a script that turns left into right and costs exactly the last cell |
| EditDistance.FillTable | external_libs/googletest/src/gtest.cc:1028-1069 | every cell of the two tables is the recurrence with its ties, edges included |
| EditDistance.PathIsValid | external_libs/googletest/src/gtest.cc:1071-1080 | from every cell the path is a valid script between the prefixes and its cost is the cell |
| EditDistance.OptimalIffTieFree | external_libs/googletest/src/gtest.cc:1053-1067 | every cell is the least cost over all scripts if and only if no cell takes Replace on a tie |
| EditDistance.ResultPromisedIff | external_libs/googletest/include/gtest/internal/gtest-internal.h:175-182 | for every input the returned script has the fewest edits, and among those the fewest replaces, if and only if it weighs what the plain three-way minimum recurrence gives |
| EditDistance.PromisedIffLeast | external_libs/googletest/src/gtest.cc:1062-1066 | for texts with fewer than 100000 lines on a side any valid script is as promised if and only if it has the least cost by the weights of the code |
| EditDistance.PromisedIffTieFree | external_libs/googletest/src/gtest.cc:1053-1067 | for such texts the scripts of all pairs of prefixes are as promised if and only if no cell takes Replace on a tie |
| EditDistance.ResultFewestIff | external_libs/googletest/include/gtest/internal/gtest-internal.h:175-182 | for every input the returned script has the fewest edits if and only if it has as many as the recurrence that only counts edits |
| EditDistance.FewestDespiteTie | external_libs/googletest/src/gtest.cc:1053-1067 | an input with a tie on the path where the script has the fewest edits and still not the promised ones |
| EditDistance.WeightSplits | external_libs/googletest/src/gtest.cc:1057-1066 | the cost of a script is so much for each edit and so much more for each replace |
| EditDistance.CostsAre | external_libs/googletest/src/gtest.cc:1057-1066 | a match costs nothing, an add or remove 1 and a replace 1.00001, in hundred-thousandths |
| EditDistance.ResultOptimalIff | external_libs/googletest/src/gtest.cc:1026-1080 | by the costs of the code the returned script is a cheapest one if and only if the last cell equals the plain three-way minimum recurrence; it is never cheaper than that |
| EditDistance.CellLeastIff | external_libs/googletest/src/gtest.cc:1044-1069 | every cell is at least the plain recurrence, and least over all scripts between the prefixes if and only if equal to it |
| EditDistance.NoScriptBelow | external_libs/googletest/src/gtest.cc:1044-1069 | no script at all between two prefixes weighs less than the plain recurrence, for any weights |
| EditDistance.LeastReached | external_libs/googletest/src/gtest.cc:1071-1080 | some script weighs exactly the plain recurrence, for any weights |
| EditDistance.TieElsewhere | external_libs/googletest/src/gtest.cc:1053-1067 | an input with a tied cell whose returned script is a cheapest one all the same |
| EditDistance.NoCheaperScript | external_libs/googletest/src/gtest.cc:1046-1067 | without such ties no script between the prefixes is cheaper than the cell |
| EditDistance.TieIsNotLeast | external_libs/googletest/src/gtest.cc:1053-1067 | with such a tie the very cell is not least |
| EditDistance.NotAlwaysOptimal | external_libs/googletest/include/gtest/internal/gtest-internal.h:175-187 | the promise fails between a, b, a and b, a, b: three replacements where a removal and an addition do, so neither the cost nor the number of edits is least |
| SimpleRegex.MatchRegexAnywhere | external_libs/googletest/src/gtest-port.cc:807-820 | for every accepted regex the search is true exactly when a substring, anchored where the regex says, is in its language |
| SimpleRegex.MatchRegexAtHead | external_libs/googletest/src/gtest-port.cc:771-797 | the head matcher is true exactly when some prefix (the whole string with an end anchor) is in the language of the items |
| SimpleRegex.MatchRepetitionAndRegexAtHead | external_libs/googletest/src/gtest-port.cc:744-766 | the loop over repetition counts is true exactly when the string splits into repetitions of the atom and a match of the rest; the mutual recursion ends |
| SimpleRegex.HeadSplits | external_libs/googletest/src/gtest-port.cc:771-797 | a match of a list of items is a split into a match of the first and a match of the others |
| SimpleRegex.FoundIsPrefixMatch | external_libs/googletest/src/gtest-port.cc:807-820 | a substring is in the language, anchored as asked, exactly when the items match at some start, only 0 with a start anchor |
| SimpleRegex.ValidateRegex | external_libs/googletest/src/gtest-port.cc:681-735 | a regex is accepted exactly when it is the text of a well-formed regex value |
| SimpleRegex.ParseIffText | external_libs/googletest/src/gtest-port.cc:681-735 | reading and writing regex values are inverse: a text reads as r exactly when r is well formed and its text is that text |
| SimpleRegex.CheckIsParseWhole | external_libs/googletest/src/gtest-port.cc:681-735 | the character-by-character check with its one flag accepts exactly what the grammar reads |
| SimpleRegex.CheckIsParse | external_libs/googletest/src/gtest-port.cc:694-732 | the same from any point behind the first character and for either value of the flag |
| SimpleRegex.RE.Init | external_libs/googletest/src/gtest-port.cc:841-872 | the pattern is kept, its validity recorded and the full pattern built with anchors where they seem missing |
| SimpleRegex.RE.PartialMatch | external_libs/googletest/src/gtest-port.cc:836-838 | true exactly when the pattern is valid and found in the string |
| SimpleRegex.RE.FullMatch | external_libs/googletest/src/gtest-port.cc:830-832 | false for an invalid pattern, otherwise true exactly when the full pattern is found |
| SimpleRegex.FullPatternParses | external_libs/googletest/src/gtest-port.cc:853-871 | the full pattern has the same items anchored at the start, and at the end unless the pattern ends in an escaped dollar |
| SimpleRegex.FullMatchIsWholeIff | external_libs/googletest/src/gtest-port.cc:868-869 | full match means the whole string for all strings if and only if the pattern does not end in an escaped dollar |
| SimpleRegex.FullMatchTooLong | external_libs/googletest/src/gtest-port.cc:868-869 | the pattern of an escaped dollar fully matches a dollar followed by a letter |
| SimpleRegex.ClassLanguage | external_libs/googletest/src/gtest-port.cc:627-671 | the escapes d, s, w mean digits, white space and word characters, and their capitals the complements |
| SimpleRegex.LiteralLanguage | external_libs/googletest/src/gtest-port.cc:652-671 | an escaped punctuation mark means itself, a dot anything but a newline, another character itself |
| SimpleRegex.ControlLanguage | external_libs/googletest/src/gtest-port.cc:657-663 | the escapes f, n, r, t and v mean the characters 12, 10, 13, 9 and 11 |
| SimpleRegex.PunctuationCodes | external_libs/googletest/src/gtest-port.cc:635-637 | punctuation is every printable ASCII code that is no blank, digit or letter |
| SimpleRegex.RepeatLanguage | external_libs/googletest/src/gtest-port.cc:744-766 | an atom with a question mark, a star, a plus or nothing behind it accepts at most one, any number of, at least one or exactly one matching character |
| JsonToken.ListedPathsFound | src/utils/json_token.c:23-115 | for scannable documents with dot-free unshadowed keys and texts that fit the buffers, the listed paths are those of the non-empty members in pre-order and each one looked up gives its own member text |
| JsonToken.PathFound | src/utils/json_token.c:23-67 | looking up the dotted path of a member at any depth gives that member text |
| JsonToken.ListsFrom | src/utils/json_token.c:69-115 | the recursive listing of an object text is the pre-order list of its paths |
| JsonToken.KeysFindThemselvesIff | src/utils/json_parser.c:162-222 | in a printed object the lookup of each non-empty member's key returns the entry at that very member's place if and only if no key of a non-empty member starts the key of a non-empty member before it |
| JsonToken.ShadowedMember | src/utils/json_parser.c:214 | a document where the key a finds the value of ab, since the test compares only a prefix |
| JsonToken.NameLookup | src/utils/json_parser.c:192-242 | the lookup in a printed object gives the entry at the place of the first non-empty member whose key starts with the name, with its text, type and length, and finds nothing when there is none |
| JsonToken.FindsFirst | src/utils/json_parser.c:192-222 | the scan with the name test stops at the first such member, at its place in the text |
| JsonToken.FindsNothing | src/utils/json_parser.c:192-222 | the scan ends without a result when there is no such member |
| JsonToken.GetValueByName | src/utils/json_parser.c:224-242 | the loop with the callback is the lookup of the name |
| JsonToken.LookupValue | src/utils/json_token.c:23-67 | the loop over the parts of the path gives, in any printed document, the text of the member the path leads to, and nothing exactly when it leads nowhere |
| JsonToken.PathResolved | src/utils/json_token.c:23-67 | for every path: each key goes to the first non-empty member ahead whose key starts with it, inside the object reached and then behind it; a path through a value that is no object gives nothing |
| JsonToken.AbsentName | src/utils/json_token.c:57-60 | a single name gives nothing if and only if no non-empty member of the document has a key that starts with it |
| JsonToken.AbsentFirst | src/utils/json_token.c:45-48 | a dotted path whose first key starts no such key gives nothing |
| JsonToken.FoundOutside | src/utils/json_token.c:50-57 | in an object a with the member c, followed by b, the path a.b gives the value of b |
| JsonToken.MetLookup | src/utils/json_parser.c:162-222 | a scan goes on past the end of an object: it finds the first of all members ahead, inside and behind |
| JsonToken.FormatCuts | src/utils/json_token.c:93-99 | a formatted text keeps at most 511 characters |
| JsonToken.KeyList.KeysOf | src/utils/json_token.c:69-115 | the static list grows by the listed paths, and an outermost call starts it anew and ends it with a null |
| JsonToken.KeyList.AddMember | src/utils/json_token.c:84-101 | one member adds its own path and then, for an object, the paths inside it |
| JsonText.PrintedObjectIterates | src/utils/json_parser.c:33-160 | iterating a printed object finds its brace, gives its members in order with key and value spans that spell them and the right types, moves forward each time and then stops |
| JsonText.Iterates | src/utils/json_parser.c:47-160 | the same from the middle of an object text, with any text before the next member and behind the object |
| JsonText.MemberRead | src/utils/json_parser.c:47-160 | reading one printed member with any spacing gives its exact key and value spans and the place behind it |
| JsonText.ValueMeasured | src/utils/json_parser.c:100-145 | the length scan of each kind of value stops exactly at its end |
| JsonText.ValueSkips | src/utils/json_parser.c:133-144 | a printed value leaves the depth count of brackets or braces as it found it and never closes the outer one |
| JsonParser.GetNextObject | src/utils/json_parser.c:47-160 | the cursor code is the declarative reading of the next member or element of the rest of the text, moved to the cursor |
| JsonParser.MeasureValue | src/utils/json_parser.c:100-145 | the measuring loops are the declarative length of the value |
| JsonParser.GetObjectAt | src/utils/json_parser.c:33-45 | the mark is found behind blanks only |
| JsonParser.GetObjectMeans | src/utils/json_parser.c:33-45 | the mark is at a place exactly when only spaces are before it |
| JsonParser.StartsMeans | src/utils/json_parser.c:73-97 | the characters that start a value, listed, and the type each starts |
| JsonParser.LiteralMeans | src/utils/json_parser.c:101-126 | a literal is one of the six words true, TRUE, false, FALSE, null and NULL |
| JsonParser.MembersAdvance | src/utils/json_parser.h:110-112 | in any text whatever the iteration loop gets members inside the text, each starting behind the last, so it ends |
| JsonParser.MemberInside | src/utils/json_parser.c:47-160 | in any text whatever the spans of a member lie inside it, in order; only a string opened at the very end leaves the cursor one behind the terminator |
| JsonParser.IndexOfIsFirst | src/utils/json_parser.c:56-71 | the search for a mark finds its first occurrence |
| JsonArray.PrintedArrayIterates | src/utils/json_parser.h:125-127 | iterating over a printed array gets exactly its elements in order, each with its text, length and type, whatever white space lies between |
| JsonArray.ElementRead | src/utils/json_parser.h:125-127 | one turn of the loop, the character under the cursor skipped, finds the next printed element and leaves the cursor behind it |
| JsonArray.EachEntry | src/utils/json_parser.h:125-127 | the loop is the declarative list of entries, and gets nothing where no array starts |
| HttpTransfer.HttpClientData.ReceiveAll | src/utils/utils_httpc.c:230-457 | over any run of calls and any behaviour of the network, delivered bytes and the remaining count add up to the content length, and delivered and then unread bytes are exactly what was to come, nothing lost or repeated, if and only if the bytes read along with the header fit the first buffer; a buffer of 32 bytes is always enough; an error means a failing read or the end of the arrivals; arrivals that cover the body end in success with all of it delivered |
| HttpTransfer.HttpClientData.GetResponseBody | src/utils/utils_httpc.c:248-307 | one call takes the events it needs and no more, ends as the numbers say it must (full buffer, whole body, failing event), delivers the front of what is to come and keeps the count; too small a buffer loses bytes in exactly one case |
| HttpTransfer.HttpClientData.Turn | src/utils/utils_httpc.c:272-301 | one turn of the loop moves pending bytes to the buffer and fetches the next ones, ending the call or leaving it one event further |
| HttpTransfer.HttpClientData.ReceiveChunk | src/utils/utils_httpc.c:282-300 | a read brings as many bytes as the event, 1023, the room left, the body still to come and the network allow, and fails exactly on a failing event or none |
| HttpTransfer.HttpClientData.FillRxBuf | src/utils/utils_httpc.c:230-246 | what fits is copied, ended by a zero and taken off the count; the rest is refused |
| HttpTransfer.HttpClientData.StartBody | src/utils/utils_httpc.c:350-369 | the body starts with the bytes behind the header and the content length |
| HttpTransfer.HttpClientData.RecvMore | src/utils/utils_httpc.c:429-442 | a further call continues with what the network still holds, nothing lost, for every buffer size, and ends as the events say |
| HttpTransfer.FailsOnlyByEvents | src/utils/utils_httpc.c:284-300 | a call fails exactly at a failing event, the last it took, or when there are no more; no other event it took was a failure |
| HttpTransfer.CoveredByCalls | src/utils/utils_httpc.c:264-307 | whether the arrivals bring the whole body, the buffer emptied whenever full, is decided call by call: success means they do, failure that they do not, and a full buffer hands the question to the next call |
| HttpTransfer.EnoughEvents | src/utils/utils_httpc.c:284-300 | arrivals that each bring something, as many as there are bytes, bring the body through a buffer of any size |
| HttpTransfer.EnoughBrought | src/utils/utils_httpc.c:284-300 | for a body that fits in the buffer, arrivals of less than 1024 bytes that add up to it make one call succeed |
| HttpTransfer.FillAll | src/utils/utils_httpc.c:75-109 | a run of calls with byte ranges or strings, empty ones too, succeeds exactly when as many writes take a whole buffer as the inputs fill; bytes sent and bytes waiting are then all inputs in order, and in every case what was sent is a prefix of them |
| HttpTransfer.FillTxBuffer | src/utils/utils_httpc.c:75-109 | one call, also for an input longer than the buffer or of length 0 (a string): it succeeds exactly when every write due takes all 1024 bytes, otherwise the first that does not says which error; nothing lost or repeated, and the index stays below 1024 |
| Base64.RoundTrip | external_libs/mbedtls/library/base64.c:77-224 | decoding an encoding with line ends put in anywhere is accepted, reports the length of the data and gives the data back |
| Base64.BreaksInsignificant | external_libs/mbedtls/library/base64.c:152-174 | line feeds, with or without carriage return, anywhere in a text leave its significant characters and pass the line checks |
| Base64.DecodedEncoded | external_libs/mbedtls/library/base64.c:77-139 | decoding inverts encoding on every byte string, and the encoding has the promised length |
| Base64.Encode | external_libs/mbedtls/library/base64.c:77-139 | the encoding with its zero byte, the needed size when the buffer is too small, and nothing else written |
| Base64.Decode | external_libs/mbedtls/library/base64.c:144-224 | accepted exactly by its form; the needed size when the buffer is too small, otherwise the decoded bytes and nothing else written |
| Base64.FirstPassIff | external_libs/mbedtls/library/base64.c:152-187 | the first pass accepts exactly the texts whose lines and padding have the right form, and counts characters and pads |
| CodecVectors.PadFormMeans | external_libs/mbedtls/library/base64.c:169-183 | the accepted characters are digits with pads only among the last two and no digit behind a pad |
| CodecVectors.LinesOkMeans | external_libs/mbedtls/library/base64.c:152-167 | a carriage return is followed by a line feed, and a space by white space or the end |
| Base64.WithinReported | external_libs/mbedtls/library/base64.c:195-219 | the second pass writes at most the length the first reported, and exactly that when the characters come in fours |
| Base64.FirstPassLoop | external_libs/mbedtls/library/base64.c:152-187 | the loop is the declarative first pass |
| Base64.SecondPass | external_libs/mbedtls/library/base64.c:204-219 | the loop with its shifting accumulator writes the decoded bytes |
| Base64.ShiftInLow | external_libs/mbedtls/library/base64.c:210 | shifting six bits into a wrapping 32-bit word keeps the digits of the current group |
| Base64.SixesOfBits | external_libs/mbedtls/library/base64.c:110-117 | the four six-bit digits of three bytes determine them |
| Base64.MapsInvert | external_libs/mbedtls/library/base64.c:44-70 | the two maps are inverse between 0 to 63 and the digit characters |
| CodecVectors.Alphabet | external_libs/mbedtls/library/base64.c:44-70 | six bits stand for the character at that place of A-Z a-z 0-9 + /, and back |
| CodecVectors.Rfc4648Vectors | external_libs/mbedtls/library/base64.c:77-139 | f, fo, foo, foob, fooba and foobar are encoded as section 10 of RFC 4648 lists them |
| CodecVectors.GroupThenRest | external_libs/mbedtls/library/base64.c:107-118 | each three bytes are encoded independently of what follows |
| Asn1.SequenceRoundTrip | external_libs/mbedtls/library/asn1parse.c:241-289 | reading a written sequence of octet strings gives the same contents in order and uses the whole of it |
| Asn1.WriteSequence | external_libs/mbedtls/library/asn1write.c:42-125 | writing any list of octet strings backwards under a sequence header leaves its encoding just before the old position and nothing else in the buffer changed, or reports a small buffer exactly when it does not fit |
| Asn1.GetSequenceOf | external_libs/mbedtls/library/asn1parse.c:241-289 | the items end up in linked nodes in order, each with its tag, length and place in the data; errors are those of the declarative reading |
| Asn1.GetItems | external_libs/mbedtls/library/asn1parse.c:258-283 | the loop over items, node by node |
| Asn1.BodyRead | external_libs/mbedtls/library/asn1parse.c:258-283 | reading a written body item by item gives the items back |
| Asn1.LenRoundTrip | external_libs/mbedtls/library/asn1parse.c:54-110 | a written length is read back, using exactly its octets, with an error only when the data behind is too short |
| Asn1.LenIsMinimal | external_libs/mbedtls/library/asn1write.c:42-100 | no readable form of a length is shorter than the written one (section 10.1 of X.690) |
| Asn1.NumberOfBigEndian | external_libs/mbedtls/library/asn1write.c:63-97 | the octets written for a length denote it |
| Asn1.GetLen | external_libs/mbedtls/library/asn1parse.c:54-110 | the switch over the number of length octets is the declarative reading, errors and out-parameters included |
| Asn1.GetTag | external_libs/mbedtls/library/asn1parse.c:112-125 | a tag and its length, or the error and how far the cursor moved |
| Asn1.WriteLen | external_libs/mbedtls/library/asn1write.c:42-100 | the minimal length octets just before the old position, or an error and nothing written |
| Asn1.WriteTag | external_libs/mbedtls/library/asn1write.c:102-110 | one byte written backwards, or an error and nothing written |
| Asn1.WriteRawBuffer | external_libs/mbedtls/library/asn1write.c:112-125 | the data just before the old position with its length as an int returned, or an error and nothing written |
| Asn1.WriteOctetString | external_libs/mbedtls/library/asn1write.c:317-329 | for data of any size: tag, length octets of the size as an int and data just before the old position and the wrapped total returned, an error with only what fitted written when they do not fit, and the negative size returned behind the bare data when the cast is negative |
| Asn1.WritesEncodingIff | external_libs/mbedtls/library/asn1write.c:317-329 | the encoding is written and its length returned if and only if the data has at most INT_MAX - 6 bytes |
| CodecVectors.SequenceOfOne | external_libs/mbedtls/library/asn1write.c:42-125 | the sequence of the one string 1, 2, 3 is 30 05 04 03 01 02 03 |
| CodecVectors.LengthVectors | external_libs/mbedtls/library/asn1write.c:42-100 | the lengths 127, 128 and 500 are written as 7f, 81 80 and 82 01 f4 |
| CodecVectors.SequenceRefused | external_libs/mbedtls/library/asn1parse.c:54-125 | which error number each text that is no sequence gets: -60, -62, -64 or -66 hexadecimal |
| CodecVectors.ItemRefused | external_libs/mbedtls/library/asn1parse.c:258-272 | an item under another tag than the one asked for is refused with -62 hexadecimal |
| LinkedList.List.Run | src/utils/utils_list.c:66-230 | any sequence of pushes, pops and removes on the nodes has the effect of the same sequence of operations on a sequence, links and length included |
| LinkedList.List.Sweep | src/utils/utils_list.c:218-266 | an iterator visits every node exactly once in its direction even when nodes just returned are removed, and the list is left without exactly the removed ones, each freed once with its value when the list frees values; freed links hold anything, so the walk cannot depend on them |
| LinkedList.List.RPush | src/utils/utils_list.c:66-84 | the node joins at the end; a null node changes nothing |
| LinkedList.List.LPush | src/utils/utils_list.c:133-151 | the node joins at the front; a null node changes nothing |
| LinkedList.List.RPop | src/utils/utils_list.c:89-106 | the last node leaves with its links cleared, or null from an empty list |
| LinkedList.List.LPop | src/utils/utils_list.c:111-128 | the first node leaves with its links cleared, or null from an empty list |
| LinkedList.List.Remove | src/utils/utils_list.c:218-230 | exactly this node leaves and is freed once, with its value when the list frees values; nothing is known of its links from then on |
| LinkedList.List.Find | src/utils/utils_list.c:156-182 | the first node whose value matches, or null when none does |
| LinkedList.List.At | src/utils/utils_list.c:187-213 | the node at an index from the front, or from the back when it is negative, or null outside |
| LinkedList.List.Destroy | src/utils/utils_list.c:45-61 | each remaining node is freed exactly once, in order, with its value when the list frees values, and no link is read after its node was freed |
| LinkedList.List.Iterate | src/utils/utils_list.c:235-239 | an iterator stands before the first node of its direction |
| LinkedList.ListIterator.Next | src/utils/utils_list.c:259-266 | the node it stands before, and it moves behind it; null at the end, again and again |
| Ring.LinksInverse | src/utils/lite-list.h:49-53 | around a ring next and prev of neighbours undo each other and stay inside the ring |
| Ring.Turned | src/utils/lite-list.h:61-69 | a ring is a ring from any of its entries, so every contract holds for an entry at any place |
| Ring.INIT_LIST_HEAD | src/utils/lite-list.h:49-53 | an entry linked to itself is a ring of one |
| Ring.ListAddBetween | src/utils/lite-list.h:61-69 | the new entry joins between two neighbours |
| Ring.ListAdd | src/utils/lite-list.h:79-82 | the new entry becomes the first behind the head, also of an empty ring |
| Ring.ListAddTail | src/utils/lite-list.h:93-96 | the new entry becomes the last before the head, also of an empty ring |
| Ring.ListDel | src/utils/lite-list.h:105-125 | the others form a ring, and the entry keeps its links |
| Ring.ListDelInit | src/utils/lite-list.h:154-158 | the others form a ring and the entry one of its own |
| Ring.ListReplace | src/utils/lite-list.h:134-141 | the new entry stands in the place of the old one, and self-linked in the place of a self-linked one |
| Ring.ListReplaceInit | src/utils/lite-list.h:143-148 | the same, and the old entry is a ring of its own |
| Ring.ListMove | src/utils/lite-list.h:165-169 | the entry becomes the first of another or of its own ring, and leaves its old one whole |
| Ring.ListMoveTail | src/utils/lite-list.h:176-181 | the entry becomes the last of another or of its own ring, and leaves its old one whole |
| Ring.ListRotateLeft | src/utils/lite-list.h:226-234 | the first entry becomes the last; an empty ring stays |
| Ring.TestsMean | src/utils/lite-list.h:188-243 | for a ring with entries the tests say what they are named after: not empty, one entry, the last entry |
| Ring.EmptyMeans | src/utils/lite-list.h:198-243 | both emptiness tests are true exactly for a head alone, which is not singular |
| ReplaceSubstr.LiteReplaceSubstr | src/utils/string_utils.c:139-166 | the string in the buffer becomes the one with all occurrences replaced from the left, also when the new text is empty or holds the key; the loop ends |
| ReplaceSubstr.PiecesJoin | src/utils/string_utils.c:139-166 | the replaced string is the pieces between occurrences joined by the new text, and joined by the key they are the old string |
| ReplaceSubstr.PiecesLeftmost | src/utils/string_utils.c:139-166 | no piece reaches an occurrence early: each occurrence taken is the leftmost one left |
| ReplaceSubstr.Rescanned | src/utils/string_utils.c:150-163 | one replacement leaves the final result as it was with the scan going on behind the new text, and the string at hand never outgrows the longer of start and result |
| ReplaceSubstr.ReplaceAt | src/utils/string_utils.c:150-158 | rebuilding through the temporary buffer replaces exactly the characters of the key |

## Left out

- AES-NI and VIA PadLock code paths, the precomputed read-only tables and AES's own mode wrappers: other code for the same function, or easier repeats of the Blowfish modes.
- Aes.AesContext.Encrypt: the pointer to the round keys is an index into the buffer, and FT0 to FT3 and RT0 to RT3 are the rows of two 2-D arrays, so pointer alignment is not captured.
- SHA-224: `utils_sha256_starts` always selects SHA-256.
- Rfc1321.SineRow: the entries are written out as in the standard and held by `Md5Vector.AbcDigest`; their derivation from the sine is not modelled.
- Hash inputs that are only read are sequences, so an input that overlaps the context is not captured.
- `mbedtls_blowfish_setkey` and its constant tables: the round trips hold for any subkeys and S-boxes.
- EditDistance.CalculateOptimalEdits: costs are exact integers in hundred-thousandths instead of doubles, so rounding in very long inputs is not captured.
- EditDistance.PromisedIffTieFree: bounded by 100000 lines on one side, from where 0.00001 for each replace can add up to an edit; `EditDistance.ResultPromisedIff` has no bound.
- BlowfishCalls.CfbCalls: each call has a buffer of its own in place of a pointer into the text.
- UnifiedDiff.Hunk.PrintTo: gives a record of the header and lines; the decimal digits of the header and the text stream are not modelled.
- UnifiedDiff.InternalStrings.GetId: the ordered map is a Dafny map; its order is never used.
- SimpleRegex.ValidateRegex: the messages for refused regexes are not modelled, nor is the null regex.
- SimpleRegex.MatchRegexAtHead: strings of SIZE_MAX bytes or more are left out, because the repetition count would wrap; characters are compared as single bytes.
- The POSIX path of the regex class and its death-test users.
- JsonParser.GetNextObject: a text whose last character opens a string leaves the cursor one behind the terminator, and the model stops there instead of reading further.
- JsonToken.GetValueByName: models calls on the whole string; the character overwritten and restored for a shorter length is left out, because the second test (src/utils/json_parser.c:185) sees the string already cut. The callback is written out as the name test.
- The type out-parameter of `json_get_value_by_name`, for which a null value also clears the result: the path lookup passes none.
- JsonToken.NameLookup: says what is found in one printed object with nothing quoted behind it; `JsonToken.MetLookup` says what a lookup finds behind the end of an inner object.
- JsonToken.PathResolved: documents in which a string begins like an object, and paths with quotes in them, are not covered.
- JsonToken.KeyList.KeysOf: the assertion of `LITE_format_string` for texts from 1024 characters and failed allocations are not modelled; the cut at 512 characters is.
- The numeric `sscanf` wrappers: easy members.
- HttpTransfer.HttpClientData.ReceiveAll: the header is read and parsed elsewhere, so a run starts from the content length and the bytes behind the header; a missing length is an error, a negative one is not modelled.
- HttpTransfer.Network.Read: the transport is a finite script of arrivals, timeouts and errors; retry timing appears only as the caller's decision to give up on a timeout.
- HttpTransfer.FillTxBuffer: `_http_send_header` ignores some return values of this call; request formatting is not modelled.
- Base64.Decode: the number `n * 6` behind the first pass is unbounded, so inputs near SIZE_MAX / 6 characters are not captured; the two tables are written as the ranges they hold.
- Asn1.WriteSequence: the calls a user of the writers makes, items from the last to the first and then the header; no single function of `asn1write.c` does this.
- Md5Stream.FileMd5: the hexadecimal form of the digest and the file handling are not modelled.
- The other ASN.1 types, named data lists, bit strings and big numbers: same scheme, or code of other libraries.
- LinkedList.List.Sweep: values are constants of their nodes, so reading a value after its node was freed is not captured; links are.
- LinkedList.List.Run: allocation failure, freeing of the list and iterator structures themselves and wrap-around of the 32-bit length are not modelled.
- LinkedList.ListIterator.Next: promises nothing when a node other than those already returned is removed meanwhile.
- The iteration and container macros of `lite-list.h`.
- ReplaceSubstr.LiteReplaceSubstr: strings that do not fit the buffers, and the empty key, with which the loop does not end, are left out.
- MQTT, shadow, OTA and device-model code, sockets, TLS, AT commands, timers, files and certificates, the samples, the code generator and the test runner.
