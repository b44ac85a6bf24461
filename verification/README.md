# Verification model of Rekindled Server

A Dafny model of four parts of the repository, with proofs. The code that works in place is modelled by
methods over arrays and classes, proved against functions and predicates whose own properties are lemmas.
`dafny verify dfyconfig.toml` checks everything. The standards meant below are FIPS 197 (AES) and NIST SP
800-38A (modes of operation).

## What is modelled

**AES** (`GaloisField`, `SubstitutionBox`, `AesWords`, `XorGroups`, `KeyAlternating`, `Fips197`,
`AesRounds`, `AesCrypt`, `KeySchedule`, `Aes`, `KeyExpansion`). Three descriptions of the cipher are connected: the field
and state operations of FIPS 197, the packed 32-bit words and tables of the C code, and the unrolled
functions. The key schedules are generic in the word type, with the XOR as a group operation and `inv_mcol`
as a linear map, and are instantiated with 32-bit words at the end. The results are that encryption under the
stored schedule is AES under the key, with the key expansion of FIPS 197 section 5.2, that decryption under the
shortcut decryption schedule is its InvCipher, and that the two undo each other in both orders, for every key,
block and schedule order (`AES_REV_DKS`).

**Modes** (`BlockChaining`, `BlockModes`, `StreamMachine`, `StreamModes`, `CtrMachine`, `CtrMode`,
`CiphertextStealing`, `AesFile`, with `Blocks`, `BufferXor`, `BufferProgress`, `ModeContexts`; `AesModes`
instantiates them). The mode modules are generic in the byte type, the XOR and the block function. Each mode has a
reference definition (whole blocks for ECB and CBC, one byte at a time for CFB and OFB, a closed form for
CTR, a file format for ciphertext stealing), and each buffer function is proved to compute it from every start
position, by words or by bytes, also when input and output are the same buffer. The three functions
for CFB and OFB differ only in their byte assignments, so they are one method with those as parameters.
`AesModes` ends with what each mode outputs, block by block, in terms of Cipher of FIPS 197 under the key.

**Injector lifecycle** (`DetourLifetime`, `MemoryPatches`, `HookManagers`, `ControlServers`, `ReloadProtocol`).
Hot unload is a transition system: game threads with stacks of frames, and the worker's transaction step
by step. Pipe ownership and reload are a second one, over any number of loaded modules. The hook manager is
a class with its list of installed hooks and the game's memory.

**Loader and server** (`Tea`, `Encodings`, `ServerInfo`, `ServerManagers`, `InjectorLogs`). The TEA codec and the
server-info block with the encodings of its strings; the port search of the shards; log rotation under failures.

`Wrappers` and `Sequences` hold what several modules share.

Failures of the environment (a thread that cannot be suspended, a write that fails, a file that cannot be
renamed) are parameters or events, so every contract holds for all of them.

Some behaviour the proofs bring out:

- A context that has just been set up for encryption stores position 1, not 0 (`aeskey.c:43`), so without
  `aes_mode_reset` the first 15 bytes of a CFB or OFB call are the input XOR the last 15 bytes of the IV, whatever
  the key (`StreamMachine.RestOfBlock`). The contracts are stated for every position; the round trips hold from
  position 1 as well.
- After a call of `aes_ctr_crypt` that ends with a block finished by its head loop, the stored position is 16 and the
  counter has not yet gone up; that state and the next counter at position 0 are the same place.
- On failure `aes_cbc_encrypt` has already changed the IV, and `aes_ctr_crypt` may have advanced the counter.
- Of the three checks before unloading, the second thread snapshot and the stack walk are needed and enough: every
  run is safe exactly when both are made, with or without the callback counter (`DetourLifetime.ChecksOfTheCode`),
  since the walk stops at any address in the DLL. `DetourLifetime.WhenCounterDecides` says for which weaker walks
  the counter would make the difference: those that can miss some stack in the DLL, but none without a counted
  callback in it.
- `StopServer` always reports success, whatever `Term` returns. `StartServer` of a shard follows a null
  pointer when there is no default server, which can happen because `Init` ignores whether "default" started.
- TEA encryption drops a last word that is not complete, so the round trip returns a message exactly when its
  length is a multiple of 8.

## Model

| member | source | states |
|---|---|---|
| GaloisField.InverseConstantsAreProducts | Source/ThirdParty/aes/aestab.c:155-162 | The multiples 9, 11, 13 and 14 built from doublings are products in GF(2^8) |
| GaloisField.ForwardConstantsAreProducts | Source/ThirdParty/aes/aestab.c:155-158 | So are the multiples 2 and 3 |
| GaloisField.MixColumnInverse | Source/ThirdParty/aes/aesopt.h:739-758 | InvMixColumn undoes MixColumn on every column (FIPS 197 section 5.3.3) |
| GaloisField.InvMixColumnInverse | Source/ThirdParty/aes/aesopt.h:739-758 | MixColumn undoes InvMixColumn too |
| GaloisField.InvMixColumnDistributes | Source/ThirdParty/aes/aesopt.h:750-758 | InvMixColumn distributes over XOR |
| SubstitutionBox.SBoxInvertsInField | Source/ThirdParty/aes/aestab.c:28-60 | The S-box data is inversion in GF(2^8) followed by the affine map, for every byte |
| SubstitutionBox.AffineInverse | Source/ThirdParty/aes/aestab.c:251-261 | `inv_affine` and `fwd_affine` undo each other |
| SubstitutionBox.InvSBoxInverse | Source/ThirdParty/aes/aestab.c:28-94 | The inverse S-box data undoes the S-box data |
| SubstitutionBox.SBoxInverse | Source/ThirdParty/aes/aestab.c:28-94 | And the S-box data undoes the inverse S-box data |
| AesWords.GfMulxColumn | Source/ThirdParty/aes/aesopt.h:621-623 | `gf_mulx` on a packed word is the doubling of each of its bytes |
| AesWords.UTablesMixColumn | Source/ThirdParty/aes/aestab.c:141-144 | The four forward tables together are MixColumn of the column of their indices |
| AesWords.VTablesInvMixColumn | Source/ThirdParty/aes/aestab.c:146-149 | The four inverse tables together are InvMixColumn |
| AesWords.InvMcolFormsAgree | Source/ThirdParty/aes/aesopt.h:750-758 | The four-table form and the `gf_mulx` form of `inv_mcol` are equal on every word |
| AesWords.InvMcolUndoesFwdMcol | Source/ThirdParty/aes/aesopt.h:746-757 | `inv_mcol` undoes `fwd_mcol` on every word |
| AesWords.InvMcolDistributes | Source/ThirdParty/aes/aesopt.h:750-758 | `inv_mcol` is linear over XOR of words |
| KeyAlternating.RoundsMeet | Source/ThirdParty/aes/aescrypt.c:258-323 | After r rounds of the equivalent inverse cipher the state is that of encryption r rounds before its end, one layer apart |
| KeyAlternating.EquivalentInverseUndoesCipher | Source/ThirdParty/aes/aescrypt.c:258-323 | The equivalent inverse cipher undoes the cipher, for any layers with the four laws of FIPS 197 section 5.3.5 and any number of rounds |
| KeyAlternating.EquivalentInverseIsInverse | Source/ThirdParty/aes/aescrypt.c:258-323 | On every input the equivalent inverse cipher is the one of FIPS 197 section 5.3, which undoes the layers one by one under the round keys of encryption |
| KeyAlternating.FusedCipherView | Source/ThirdParty/aes/aescrypt.c:119-185 | Rounds fused into tables compute the layered cipher through a view of the state |
| Fips197.DecryptionUndoesEncryption | Source/ThirdParty/aes/aescrypt.c:211-323 | The layers of AES meet those laws, so EqInvCipher undoes Cipher for every schedule and block |
| Fips197.EncryptionUndoesDecryption | Source/ThirdParty/aes/aescrypt.c:87-323 | Cipher undoes EqInvCipher too |
| Fips197.DecryptionIsInvCipher | Source/ThirdParty/aes/aescrypt.c:211-323 | EqInvCipher under the decryption schedule is InvCipher under the encryption schedule |
| AesRounds.FwdRndView | Source/ThirdParty/aes/aescrypt.c:87-117 | A forward table round is SubBytes, ShiftRows, MixColumns and AddRoundKey, for every state and key |
| AesRounds.InvRndView | Source/ThirdParty/aes/aescrypt.c:211-241 | An inverse table round is InvSubBytes, InvShiftRows, InvMixColumns and AddRoundKey |
| AesRounds.EncryptorImplementsForward | Source/ThirdParty/aes/aescrypt.c:87-117 | First, inner and last round of encryption implement the FIPS 197 layers |
| AesRounds.DecryptorImplementsInverse | Source/ThirdParty/aes/aescrypt.c:211-241 | The same for decryption |
| AesCrypt.EncryptUnrolled | Source/ThirdParty/aes/aescrypt.c:132-180 | The unrolled rounds with fall-through by key size are the rounds in order, on alternating state variables |
| AesCrypt.DecryptUnrolled | Source/ThirdParty/aes/aescrypt.c:271-318 | The same for decryption, with round keys addressed from the end |
| AesCrypt.AesEncrypt | Source/ThirdParty/aes/aescrypt.c:119-185 | `aes_encrypt` stores the encrypted block, or fails and changes nothing when the context holds no round count |
| AesCrypt.AesDecrypt | Source/ThirdParty/aes/aescrypt.c:258-323 | The same for `aes_decrypt` in either schedule order |
| AesCrypt.BlockInOut | Source/ThirdParty/aes/aesopt.h:596-612 | Reading back a written state gives its words |
| XorGroups.AccumulatorStep | Source/ThirdParty/aes/aeskey.c:294-303 | Four words kept as differences, one of them changed per round, stand for the last round key |
| KeySchedule.VInverse | Source/ThirdParty/aes/aeskey.c:247-254 | The index map `v` is its own inverse on the schedule and keeps inner round keys inner |
| KeySchedule.Expander.Kdf4 | Source/ThirdParty/aes/aeskey.c:277-292 | The first shortcut cycle for 128 bits turns the key into accumulators and stores the mixed first round key |
| KeySchedule.Expander.Kd4 | Source/ThirdParty/aes/aeskey.c:294-303 | A middle cycle keeps the accumulators and stores the next mixed round key |
| KeySchedule.Expander.Kdl4 | Source/ThirdParty/aes/aeskey.c:305-313 | The last cycle recovers the plain last round key from the accumulators |
| KeySchedule.Expander.Difference6 | Source/ThirdParty/aes/aeskey.c:436-452 | `kd6` stores the next six mixed words, by adding a mixed difference to the words six before |
| KeySchedule.Expander.Difference8 | Source/ThirdParty/aes/aeskey.c:557-579 | `kd8` stores the next eight mixed words |
| KeySchedule.Expand128 | Source/ThirdParty/aes/aeskey.c:79-121 | The 128-bit expansion stores the key schedule of FIPS 197 section 5.2 and nothing beyond it |
| KeySchedule.Expand192 | Source/ThirdParty/aes/aeskey.c:127-179 | The same for 192 bits, with a partial last cycle |
| KeySchedule.Expand256 | Source/ThirdParty/aes/aeskey.c:185-241 | The same for 256 bits, with the extra substitution |
| KeySchedule.DecryptKey128 | Source/ThirdParty/aes/aeskey.c:357-399 | The shortcut schedule is the encryption schedule with `inv_mcol` on round keys 1 to 9, under `v`, for every key and both orders |
| KeySchedule.DecryptKey192 | Source/ThirdParty/aes/aeskey.c:466-514 | The same for 192 bits, though cycles of six words straddle round keys |
| KeySchedule.DecryptKey256 | Source/ThirdParty/aes/aeskey.c:593-646 | The same for 256 bits and cycles of eight words |
| KeySchedule.MixedLogical | Source/ThirdParty/aes/aeskey.c:380-388 | Mixing the inner words in place, in either order, mixes exactly the inner round keys |
| KeySchedule.PlainDecryptKey | Source/ThirdParty/aes/aeskey.c:380-388 | The plain form meets the contract of the shortcut form, for the three key sizes |
| KeySchedule.ScheduleDetermined | Source/ThirdParty/aes/aeskey.c:368-389 | So the shortcut and the plain form store the same words |
| Aes.AesKeyingValid | Source/ThirdParty/aes/aesopt.h:750-758 | XOR on words is a group in which every word is its own inverse, and `inv_mcol` is linear on it |
| Aes.AesEncryptKey | Source/ThirdParty/aes/aeskey.c:654-667 | Succeeds exactly for lengths 16, 24, 32 (bytes) and 128, 192, 256 (bits); then the schedule is that of a key of this length, with its round count and position 1; otherwise nothing is changed |
| Aes.AesDecryptKey | Source/ThirdParty/aes/aeskey.c:670-683 | The same for the decryption schedule, with position 0 |
| Aes.UsedKeysAreDecryptionSchedule | Source/ThirdParty/aes/aescrypt.c:258-323 | The round keys in the order of use are those that the equivalent inverse cipher asks for |
| Aes.EncryptBlockIsCipher | Source/ThirdParty/aes/aescrypt.c:119-185 | `aes_encrypt` computes Cipher of FIPS 197 section 5.1 |
| KeyExpansion.ExpandedIsExpansion | Source/ThirdParty/aes/aeskey.c:79-241 | Every word of the schedule, made with `ls_box` and `t_use(r, c)`, is the word of KeyExpansion of FIPS 197 section 5.2, with SubWord, RotWord and Rcon as powers of x in GF(2^8), for the three key sizes |
| KeyExpansion.RoundKeysAreExpansion | Source/ThirdParty/aes/aeskey.c:79-241 | The round keys that `aes_encrypt` reads from the stored words are those of the standard |
| KeyExpansion.EncryptIsAes | Source/ThirdParty/aes/aescrypt.c:119-185 | `aes_encrypt` after `aes_encrypt_key` is AES under the key, for every key of 16, 24 or 32 bytes and every block |
| Aes.DecryptUndoesEncrypt | Source/ThirdParty/aes/aescrypt.c:258-323 | `aes_decrypt` undoes `aes_encrypt` for every key of 16, 24 or 32 bytes, every block and both schedule orders |
| Aes.EncryptUndoesDecrypt | Source/ThirdParty/aes/aescrypt.c:119-323 | `aes_encrypt` undoes `aes_decrypt` on every block, whether or not it was made by encryption |
| Aes.DecryptBlockIsInvCipher | Source/ThirdParty/aes/aescrypt.c:258-323 | `aes_decrypt` computes InvCipher of FIPS 197 section 5.3 under the round keys of encryption |
| KeyExpansion.DecryptIsInverseAes | Source/ThirdParty/aes/aescrypt.c:258-323 | `aes_decrypt` after `aes_decrypt_key` is InvCipher under the key, for every key, block and schedule order |
| KeyExpansion.BlocksAreAes | Source/ThirdParty/aes/aescrypt.c:119-323 | The same on blocks of bytes in the order of FIPS 197 section 3.4 |
| StreamMachine.RunConcat | Source/ThirdParty/aes/aes_modes.c:453-577 | State and output after two calls are those after one call on both inputs |
| StreamMachine.CallsAreOneCall | Source/ThirdParty/aes/aes_modes.c:453-841 | The same for any list of calls |
| StreamMachine.RestOfBlock | Source/ThirdParty/aes/aes_modes.c:457-465 | From a position p > 0 the rest of the block is output under `iv[p..]` itself, whatever the block cipher, and the new IV is that block with the bytes kept |
| StreamMachine.WholeBlock | Source/ThirdParty/aes/aes_modes.c:536-560 | A block from position 0 is one encryption of the state combined with the input: the block formulas of NIST SP 800-38A sections 6.3 and 6.4 |
| StreamMachine.CfbLockstep | Source/ThirdParty/aes/aes_modes.c:579-715 | CFB decryption runs through the states of encryption and returns the message |
| StreamMachine.CfbRoundTrip | Source/ThirdParty/aes/aes_modes.c:453-715 | CFB restores the message from any IV and position, with any calls on one side and any others on the other |
| StreamMachine.OfbStates | Source/ThirdParty/aes/aes_modes.c:717-841 | The OFB key stream does not depend on the message |
| StreamMachine.OfbRoundTrip | Source/ThirdParty/aes/aes_modes.c:717-841 | OFB is its own inverse, whatever the calls |
| StreamMachine.CfbPart | Source/ThirdParty/aes/aes_modes.c:453-715 | From position 0 each part of CFB output is the input XOR the encryption of the block of ciphertext before it, or of the IV, in both directions and for a partial last block |
| StreamMachine.OfbPart | Source/ThirdParty/aes/aes_modes.c:717-841 | From position 0 part i of OFB output is the input XOR the IV encrypted i + 1 times |
| StreamModes.OneBlock | Source/ThirdParty/aes/aes_modes.c:518-561 | A whole block, by words or by bytes, is sixteen steps of the byte machine |
| StreamModes.WholeBlocks | Source/ThirdParty/aes/aes_modes.c:467-561 | The block loop keeps the byte machine's state and is entered only at a block boundary |
| StreamModes.StreamCrypt | Source/ThirdParty/aes/aes_modes.c:453-841 | CFB in both directions and OFB: buffers, IV and position are the byte machine's for every length and every position from 0 to 16, where 16 is like 0, also in place; on failure exactly the bytes that needed no new block are done |
| BlockChaining.EcbRoundTrip | Source/ThirdParty/aes/aes_modes.c:193-249 | ECB decryption undoes encryption for any number of blocks |
| BlockChaining.EcbConcat | Source/ThirdParty/aes/aes_modes.c:135-249 | Two ECB calls are one call on the concatenation |
| BlockChaining.CbcRoundTrip | Source/ThirdParty/aes/aes_modes.c:351-451 | CBC decryption undoes encryption for any number of blocks and any IV |
| BlockChaining.CbcBack | Source/ThirdParty/aes/aes_modes.c:251-451 | CBC encryption undoes decryption too, for any whole blocks |
| BlockChaining.CbcEncryptConcat | Source/ThirdParty/aes/aes_modes.c:308-349 | Going on from the IV that a call leaves is one call on the concatenation |
| BlockChaining.CbcDecryptConcat | Source/ThirdParty/aes/aes_modes.c:408-451 | The same for decryption |
| BlockChaining.CbcEncryptPrefix | Source/ThirdParty/aes/aesxam.c:205-228 | Encrypting a prefix of whole blocks gives the prefix of the ciphertext |
| BlockChaining.CbcDecryptPrefix | Source/ThirdParty/aes/aesxam.c:290-309 | The same for decryption |
| BlockChaining.EcbBlock | Source/ThirdParty/aes/aes_modes.c:135-249 | Block n of ECB output is the block function of block n of the input |
| BlockChaining.CbcEncryptBlock | Source/ThirdParty/aes/aes_modes.c:308-345 | Block n of CBC output is the encryption of block n of the input XOR the block of output before it, or the IV |
| BlockChaining.CbcDecryptBlock | Source/ThirdParty/aes/aes_modes.c:408-449 | Block n of CBC decryption is the decryption of block n XOR the block of input before it, or the IV |
| BufferXor.XorBlock | Source/ThirdParty/aes/aes_modes.c:308-345 | The word path and the byte path give the same buffer |
| BlockModes.Ecb | Source/ThirdParty/aes/aes_modes.c:135-249 | Both ECB functions, in place or not; a partial block or an unkeyed context fails and changes nothing |
| BlockModes.CbcEncrypt | Source/ThirdParty/aes/aes_modes.c:251-349 | Output and new IV are those of CBC, by either path, in place or not; what a failure leaves behind |
| BlockModes.CbcDecrypt | Source/ThirdParty/aes/aes_modes.c:351-451 | The same for decryption, where a failure changes nothing |
| CtrMachine.KeyByteAfter | Source/ThirdParty/aes/aes_modes.c:845-938 | The key stream goes on where the stored state left it |
| CtrMachine.EndOfBlock | Source/ThirdParty/aes/aes_modes.c:861-874 | Position 16 of a counter and position 0 of the next one are the same place |
| CtrMachine.CallsAreOneCall | Source/ThirdParty/aes/aes_modes.c:845-938 | Any list of calls is one call on the concatenation |
| CtrMachine.EveryByte | Source/ThirdParty/aes/aes_modes.c:845-938 | From a reset context byte j is input byte j XOR byte j mod 16 of the encryption of the counter increased j/16 times, for every split |
| CtrMachine.RoundTrip | Source/ThirdParty/aes/aes_modes.c:845-938 | CTR undoes itself from any two states for the same place, with any calls on either side |
| CtrMode.EncryptedCounters | Source/ThirdParty/aes/aes_modes.c:872-893 | The encrypted buffer of counter blocks is the key stream |
| CtrMode.Chunk | Source/ThirdParty/aes/aes_modes.c:872-934 | One round of up to eight blocks outputs the next part of the key stream and advances the counter by whole blocks only |
| CtrMode.CtrCrypt | Source/ThirdParty/aes/aes_modes.c:845-938 | Output, counter and position are those of the definition from every position 0 to 16, in place or not; what a failure leaves behind |
| CiphertextStealing.StolenRoundTrip | Source/ThirdParty/aes/aesxam.c:301-328 | The stolen bytes complete the last whole block and the partial one is recovered |
| CiphertextStealing.ShortFileIs | Source/ThirdParty/aes/aesxam.c:191-206 | A file of r < 16 bytes becomes the first r bytes of the IV and one encrypted block: the rest of the IV, and the file XOR those first bytes |
| CiphertextStealing.LongFileIs | Source/ThirdParty/aes/aesxam.c:207-259 | A longer one becomes the IV and the CBC encryption of the file filled up with zeros, its last two blocks exchanged and cut to length |
| CiphertextStealing.RoundTrip | Source/ThirdParty/aes/aesxam.c:175-343 | Every message of any length under every IV is restored, and the file is 16 bytes longer |
| CiphertextStealing.FileBack | Source/ThirdParty/aes/aesxam.c:175-343 | In the other direction every file of at least 16 bytes is the encryption of what it decrypts to, under the IV it begins with, of which a file below 32 bytes holds only the beginning |
| AesFile.EncFile | Source/ThirdParty/aes/aesxam.c:175-259 | `encfile`, with its three rotating blocks, writes that file, or the part of it before the first write that fails and then reports the error; a context without a key leaves its blocks unencrypted |
| AesFile.DecFile | Source/ThirdParty/aes/aesxam.c:261-343 | `decfile` writes the message of the file, or its part before a failed write; it reads what was never written exactly for a file of less than a block, or for a context without a key and two blocks or more |
| AesFile.FileRoundTrip | Source/ThirdParty/aes/aesxam.c:175-343 | With space for 16 bytes more than the file, `decfile` after `encfile` gives it back |
| AesModes.XorWordsBytewise | Source/ThirdParty/aes/aes_modes.c:308-319 | XOR of 32-bit words loaded from memory is XOR of their bytes |
| AesModes.WordPaths | Source/ThirdParty/aes/aes_modes.c:518-534 | The word assignments of the three stream functions agree with their byte assignments |
| AesModes.CipherUndone | Source/ThirdParty/aes/aescrypt.c:119-323 | AES under the two schedules of a key meets what the modes ask of a block cipher, in both orders |
| AesModes.ContextsAreAes | Source/ThirdParty/aes/aescrypt.c:119-323 | The block functions of the two contexts are AES under the key and its inverse, on every block |
| AesModes.ContextStates | Source/ThirdParty/aes/aescrypt.c:119-323 | As states they are Cipher and InvCipher of FIPS 197 under the key |
| AesModes.EcbIsAes | Source/ThirdParty/aes/aes_modes.c:135-249 | Block n of ECB is AES under the key of block n, or its inverse |
| AesModes.CbcIsAes | Source/ThirdParty/aes/aes_modes.c:251-349 | Block n of CBC is AES under the key of block n XOR the ciphertext before it |
| AesModes.CbcDecryptionIsAes | Source/ThirdParty/aes/aes_modes.c:351-451 | Block n of CBC decryption is the inverse of AES of block n XOR the ciphertext before it |
| AesModes.CfbIsAes | Source/ThirdParty/aes/aes_modes.c:453-715 | CFB in any calls: each part is the input XOR AES under the key of the ciphertext block before it, in both directions |
| AesModes.OfbIsAes | Source/ThirdParty/aes/aes_modes.c:717-841 | OFB in any calls: part i is the input XOR AES applied i + 1 times to the IV |
| AesModes.CtrIsAes | Source/ThirdParty/aes/aes_modes.c:845-938 | CTR in any calls: byte j is input byte j XOR byte j mod 16 of AES under the key of the counter increased j/16 times |
| AesModes.ShortFileIsAes | Source/ThirdParty/aes/aesxam.c:191-206 | A short file under AES |
| AesModes.LongFileIsAes | Source/ThirdParty/aes/aesxam.c:207-259 | A longer one, out of the blocks of CBC with AES |
| AesModes.CbcWithAes | Source/ThirdParty/aes/aes_modes.c:251-451 | CBC and ECB with AES restore every message |
| AesModes.FileWithAes | Source/ThirdParty/aes/aesxam.c:175-343 | So does the file format with AES |
| AesModes.FileBackWithAes | Source/ThirdParty/aes/aesxam.c:175-343 | And every file of at least a block is the encryption of its decryption |
| AesModes.CfbWithAes | Source/ThirdParty/aes/aes_modes.c:453-715 | CFB with AES restores every message, from any IV and position, with any calls on one side and any others on the other |
| AesModes.OfbWithAes | Source/ThirdParty/aes/aes_modes.c:717-841 | OFB with AES is its own inverse |
| AesModes.CtrWithAes | Source/ThirdParty/aes/aes_modes.c:845-938 | So is CTR, for any increment of the counter |
| DetourLifetime.StepKeepsInv | Source/Injector/DetourLifetime.cpp:101-201 | Every step of every thread keeps: the counter is the number of counted callbacks or more, bindings are exactly the live detours, and what each stage of the transaction has established |
| DetourLifetime.ChecksClear | Source/Injector/DetourLifetime.cpp:139-161 | When the checks have passed, no thread has an address in the DLL |
| DetourLifetime.UnloadIsSafe | Source/Injector/Entry.cpp:36-51 | In every interleaving, under any adequate checks, once the DLL is unloaded no detour leads into it and no thread is in it or returns to it |
| DetourLifetime.NobodyStaysSuspended | Source/Injector/DetourLifetime.cpp:192-200 | Commit and abort leave no thread suspended, and the record of detours is exact between operations |
| DetourLifetime.FailedOperation | Source/Injector/DetourLifetime.cpp:168-201 | An attach or a detach that is begun at any point of any run and fails leaves every detour and its record as before and no thread held, and the same operation can be begun again |
| DetourLifetime.SuccessfulOperation | Source/Injector/DetourLifetime.cpp:212-229 | One that ends with its commit: an attach adds its function to those hooked before, at the end of the record; a detach leaves none and lets the DLL be unloaded; no thread is held and any next operation can be begun |
| DetourLifetime.CallbackReturns | Source/Injector/DetourLifetime.cpp:203-210 | A hooked function runs through its callback, counted once in its scope, and returns with everything as before; one without a detour never enters the DLL |
| DetourLifetime.OthersStandStill | Source/Injector/DetourLifetime.cpp:101-108 | A thread that is held or not the one that acts keeps its stack |
| DetourLifetime.KilledForGood | Source/Injector/DetourLifetime.cpp:82-99 | A thread that is ended, whenever and by whatever thread, never runs again and leaves no frames, in any run |
| DetourLifetime.NothingLeftUnloads | Source/Injector/Entry.cpp:36-51 | A worker without detours goes on to unload, or keeps the DLL as it is |
| DetourLifetime.ChecksAreExact | Source/Injector/DetourLifetime.cpp:109-161 | For every walk, all runs are safe exactly when the second snapshot is made and no stack with an address in the DLL gets past both the walk and, where it is looked at, the counter |
| DetourLifetime.ChecksOfTheCode | Source/Injector/DetourLifetime.cpp:24-62 | With the walk of `CheckStack`, which refuses any address in the DLL, all runs are safe exactly when the second snapshot and the walk are made, whether or not the counter is looked at |
| DetourLifetime.WhenCounterDecides | Source/Injector/DetourLifetime.cpp:139-144 | The counter makes the difference exactly for the walks that can pass a stack in the DLL, but none without a counted callback in it |
| DetourLifetime.ChecksOfLostWalk | Source/Injector/DetourLifetime.cpp:139-161 | For a walk that can lose track in external code called by a counted callback, all runs are safe exactly when the second snapshot is made and the counter is looked at |
| MemoryPatches.PushKeeps | Source/Injector/Hooks/DarkSouls2/DS2_ReplaceServerAddressHook.cpp:128-131 | Remembering a place before overwriting it keeps what unwinding restores, whatever it overlaps |
| HookManagers.UndoneAtMostOnce | Source/Injector/HookManager.cpp:60-68 | In a history of installations and undoings by a list that only its last hook leaves, each installation is undone at most once |
| HookManagers.UndoneInReverse | Source/Injector/HookManager.cpp:60-68 | In reverse order: what is undone is the latest installation that is left, it and those below it have stayed on the list since, and the list goes back to what it was before it |
| HookManagers.HookManager.EachUndoneOnce | Source/Injector/HookManager.cpp:29-70 | In the manager's own history, which every call only appends to, each installation of a hook was undone exactly once, but for the present one |
| HookManagers.HookManager.UninstallAll | Source/Injector/HookManager.cpp:52-70 | Succeeds exactly when the detours can go and every remembered place can be written; then nothing is installed, no detour is live and memory is the original; what a refusal or a failed write leaves; the history goes on with the undoing of the hooks that left, the last one first |
| HookManagers.HookManager.InstallAll | Source/Injector/HookManager.cpp:29-50 | Succeeds exactly when nothing is installed and every hook succeeds; then each byte holds what the last edit to cover it writes, every other byte is the original, and the detours are the attached functions in order; else rolls back, the failed hook included; the installed hooks stay a prefix and live detours imply one; the history goes on with the installations in order and, on failure, the undoings in reverse |
| HookManagers.TakenAt | Source/Injector/HookManager.cpp:32-36 | The actions that are taken are the hooks' own, one hook after the other, each as far as it got |
| HookManagers.EditedWrites | Source/Injector/Hooks/DarkSouls2/DS2_ReplaceServerAddressHook.cpp:110-131 | What edits make of memory, byte by byte: the last one to cover a byte decides it |
| HookManagers.TargetsRecord | Source/Injector/DetourLifetime.cpp:212-218 | The record of detours is the attached functions in the order of the actions |
| HookManagers.HookManager.Install | Source/Injector/Hooks/DarkSouls2/DS2_ReplaceServerAddressHook.cpp:23-131 | A hook that stops anywhere has made exactly the changes up to there and can be undone |
| HookManagers.HookManager.Uninstall | Source/Injector/Hooks/DarkSouls2/DS2_ReplaceServerAddressHook.cpp:133-143 | A hook's undo writes back from the last place; a failed write, even partial, keeps the place for a retry |
| HookManagers.HookManager.Destroy | Source/Injector/HookManager.cpp:16-23 | Hooks are destroyed only after a complete teardown, which the history goes on with |
| ControlServers.Run | Source/Injector/ControlServer.cpp:24-88 | Every answer is the one that the requests so far ask for (Running exactly if initialized and no detach has been asked for, Detached exactly for the detach that succeeds), and the loop ends at the first detach that succeeds and never before |
| ReloadProtocol.StepKeepsInv | Source/Injector/ControlServer.cpp:4-22 | Every event keeps: exactly the worker between creating and closing the pipe owns it, detours exist only while it installs hooks, rolls back or serves, and while it installs, or serves as initialized, they are exactly those of its installed hooks |
| ReloadProtocol.OneModuleDetours | Source/Injector/Entry.cpp:53-113 | In every run at most one module has live detours, the owner of the pipe |
| ReloadProtocol.RunReturnsAfterDetach | Source/Injector/ControlServer.cpp:56-87 | A worker past `Run` was detached successfully at some event while it owned the pipe; one that never served was turned away by the owner |
| ReloadProtocol.UnmappedIsSafe | Source/Injector/Entry.cpp:47-51 | A module is unmapped only after its worker has exited, without detours |
| ReloadProtocol.ReloadAfterUnload | tools/InjectDS3.cpp:127-174 | `--reload` reaches the injection only after the old worker has exited and its module is unmapped |
| ReloadProtocol.ReplacementInstalled | tools/InjectDS3.cpp:240-253 | When the tool reports the replacement as initialized, that module owns the pipe and serves, every hook of its configuration is installed with all the detours it attaches live, and no other module has a hook or a detour |
| ReloadProtocol.ReloadCanSucceed | tools/InjectDS3.cpp:127-253 | With any hooks of the old and the new module there is a run from an empty game in which `--reload` unmaps the old one and reports the new one, which serves with all its hooks |
| ReloadProtocol.ReferenceDropped | Source/Injector/Entry.cpp:23-34 | A reference to the module that was added can be dropped again, with everything as before |
| Tea.RoundsUndone | Source/Loader/Utils/EncryptionUtils.cs:51-92 | n rounds of decryption undo n rounds of encryption, modulo 2^32 |
| Tea.EncryptRoundInFull | Source/Loader/Utils/EncryptionUtils.cs:63-65 | The two assignments of a round of encryption on 32-bit words, with their key words and shifts |
| Tea.DecryptRoundInFull | Source/Loader/Utils/EncryptionUtils.cs:85-87 | The same for decryption |
| Tea.KnownBlock | Source/Loader/Utils/EncryptionUtils.cs:51-71 | The ciphertext of a block under a key of four different words |
| Tea.LittleEndian | Source/Loader/Utils/EncryptionUtils.cs:94-99 | Words are read and written with the least byte first |
| Tea.LastSum | Source/Loader/Utils/EncryptionUtils.cs:58-80 | The decryptor's first sum is the encryptor's last |
| Tea.BlockUndone | Source/Loader/Utils/EncryptionUtils.cs:51-92 | Decryption of a block undoes encryption for every key |
| Tea.Tea32EncryptBlock | Source/Loader/Utils/EncryptionUtils.cs:51-71 | The block method stores the encryption of the words it reads, missing words as 0 |
| Tea.Tea32Encrypt | Source/Loader/Utils/EncryptionUtils.cs:25-37 | The array method encrypts every block of the padded message |
| Tea.Tea32Decrypt | Source/Loader/Utils/EncryptionUtils.cs:39-49 | Decrypts arrays of whole blocks and throws on others |
| Tea.RoundTrip | Source/Loader/Utils/EncryptionUtils.cs:25-49 | Decryption after encryption gives the message cut to whole words and zero-padded to whole blocks |
| Tea.RoundTripExact | Source/Loader/Utils/EncryptionUtils.cs:25-49 | It is the message exactly when the length is a multiple of 8, and begins with it exactly when the cut bytes are 0 |
| ServerInfo.MakeEncryptedServerInfo | Source/Loader/Utils/PatchingUtils.cs:39-60 | Null exactly when the UTF-8 key or the UTF-16 host name is too long, else the encrypted block of both |
| ServerInfo.Layout | Source/Loader/Utils/PatchingUtils.cs:22-57 | Key and host name do not overlap, and zeros follow each up to the next or the end |
| ServerInfo.Faithful | Source/Loader/Utils/PatchingUtils.cs:39-60 | Decryption gives the block back, and the strings read from it are the encoded key and host name exactly when these hold no NUL |
| ServerInfo.Recovers | Source/Loader/Utils/PatchingUtils.cs:39-60 | Decoded, they are the key and the host name exactly when these have no unpaired surrogate |
| Encodings.DecodedUtf8 | Source/Loader/Utils/PatchingUtils.cs:43 | Decoding UTF-8 gives back every string, with unpaired surrogates replaced |
| Encodings.RepairedAt | Source/Loader/Utils/PatchingUtils.cs:43-44 | Exactly the surrogates that are not half of a pair are encoded as U+FFFD, every other unit as it is |
| Encodings.RepairedSame | Source/Loader/Utils/PatchingUtils.cs:43-44 | So a string is encoded as it is exactly when it has no unpaired surrogate |
| Encodings.UnitForm | Source/Loader/Utils/PatchingUtils.cs:43 | A unit is written in the shortest form of UTF-8, bit by bit (RFC 3629 section 3) |
| Encodings.PairForm | Source/Loader/Utils/PatchingUtils.cs:43 | A pair is written as the four bytes of its code point |
| Encodings.UnitBytesAt | Source/Loader/Utils/PatchingUtils.cs:44 | UTF-16 stores the low byte of each unit before the high one |
| ServerManagers.InUseBound | Source/Server/Server/ServerManager.cpp:216-234 | If all ports of a stretch are in use it is at most 4n long for n servers |
| ServerManagers.InUseExactly | Source/Server/Server/ServerManager.cpp:216-234 | A port is in use exactly when it is the game, web, auth or login port of some server |
| ServerManagers.LeastFreeIs | Source/Server/Server/ServerManager.cpp:210-237 | What the search looks for, in the four ports of the servers |
| ServerManagers.ServerManager.GetFreeGamePort | Source/Server/Server/ServerManager.cpp:210-237 | The search ends within 4n of its start with the least port there that no server uses |
| ServerManagers.AssignedDistinct | Source/Server/Server/Server.cpp:179-186 | Four searches, each seeing the ports assigned before, make the server's ports differ from each other and from all others |
| ServerManagers.ServerManager.StartServer | Source/Server/Server/ServerManager.cpp:162-180 | A failed start leaves the list as it was; a started shard has its four ports; a default server keeps ports apart exactly when its configured ones are |
| ServerManagers.ServerManager.StopServer | Source/Server/Server/ServerManager.cpp:182-208 | Exactly the servers with the id go, the others keep their order, and the result is always success |
| ServerManagers.PrunedKeeps | Source/Server/Server/ServerManager.cpp:263-279 | A prune removes exactly the servers whose id is among the idle shards' |
| ServerManagers.PruneIdsAre | Source/Server/Server/ServerManager.cpp:263-272 | Those ids are the ids of the servers that are idle and not the default one |
| ServerManagers.ServerManager.PruneOldServers | Source/Server/Server/ServerManager.cpp:263-279 | The method does that |
| ServerManagers.RunDistinct | Source/Server/Server/ServerManager.cpp:162-279 | Over every run of starts, failed starts, stops and prunes the ports of a shard differ from each other and from every other server's |
| ServerManagers.DistinctPorts | Source/Server/Server/Server.cpp:179-186 | That is, the four ports of a shard are four, and none of them is a port of another server |
| InjectorLogs.SizeOfText | Source/Injector/InjectorLog.cpp:30-64 | The byte count of a file is the length of its text |
| InjectorLogs.MovedUp | Source/Injector/InjectorLog.cpp:43-47 | Renaming a backup into a free place keeps what the backups hold, in order |
| InjectorLogs.InjectorLog.Rotate | Source/Injector/InjectorLog.cpp:37-54 | Whatever step fails, the files keep their order and lose nothing but the oldest backup; without failures every file moves up and the current one starts empty |
| InjectorLogs.InjectorLog.Write | Source/Injector/InjectorLog.cpp:56-73 | The text of the files is a suffix of the old text and all that was appended, character by character, and only a rotation shortens it; a record that is not in the file in full goes to the debugger; without failures every file is in bounds or a single oversized record |

## Left out

- VIA ACE, AES-NI, inline assembler, `REDUCE_CODE_SIZE`, one-table and no-table builds: other instructions or build options than the shipped ones; `aeskey2.c` repeats `aeskey.c`.
- Big-endian byte order and `aes_sw32`: words are little-endian as on the supported platforms.
- `aes_init` and the dynamic tables: the static tables are modelled, by their formulas.
- Test, timing and file helpers of the AES library, and the key parsing of `main` in `aesxam.c`.
- Buffers that overlap without being the same, and an IV inside a buffer: not promised by the mode functions.
- `StreamModes.StreamCrypt`: the buffers are taken from their start, not through moving pointers into larger ones; the same holds for the other mode methods.
- `AesFile.EncFile`: the IV of `fillrand` is a parameter, and reads fail only at the end of the file. All writes take from one supply of space, so a failed write is the last one.
- `AesFile.DecFile`: what the code does once it has read a value that was never written is not described.
- Detours, thread snapshots and the stack walk are abstract: commit patches all and resumes all, abort and a failed commit change nothing and resume all, and the walk sees every address on a stack or fails. The unwinding of `CheckStack` is not modelled.
- Threads created by another process during a transaction, and hooked functions called by the worker itself between its steps.
- Wrap-around of the callback counter at 2^32.
- `HookManagers.HookManager.Install`: a hook is a list of detours and memory writes of which any number may be done; the individual hooks, and the game's own writes to patched places, are not modelled.
- `ReloadProtocol.ReplacementInstalled`: a hook of a module is the number of detours that it attaches; memory patches are left to `HookManagers`.
- `ReloadProtocol.ReloadAfterUnload`: modules and workers have unique names, so a reused base address or thread id is not modelled, nor are exceptions in the worker, which keep the DLL loaded.
- The tool's argument parsing, process lookup, mutex, shadow copy and remote thread; time limits appear as events that may happen at any time.
- Ports above 65535: the search does not check for them, and neither does the model. Ports that other programs use are not seen by it either.
- `ServerManagers.RunDistinct`: the default server is started first and once, as `Init` does; a later start of it is covered by `StartServer`'s own condition.
- `InitLogFile` with its fallback directory, and other processes writing to the log.
- The loader's and the tool's user interfaces, HTTP, Steam, registry, JSON configuration, `ClientSession` and the game services: separate from the parts above, or simple calls.
