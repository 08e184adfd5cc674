# Verified models of dsom's hashing, inline caches and call frames

This project models parts of *dsom* - a Smalltalk virtual machine built with the Deegen compiler
generator - in Dafny and proves that they keep their promises. One module corresponds to one
component; a method mirrors a routine that updates state, and is proved against a function or
predicate that says what the routine is for.

**Hashing.** `StripeFold` is the common reference: a step function folded over fixed-width stripes.
`Xxh3Long`, `Xxh3Short` and `Xxh3OneShot` define 64-bit XXH3 and prove the one-shot code;
`Xxh3State` proves the streaming state (buffer, block counter, eager scrambling, bulk path,
look-back) against it for whole runs; `HashFunctions` is the string and primitive-value layer.
Everything is generic in the accumulate and scramble routines, which the library selects by function
pointer; `Xxh3Kernel` gives them their scalar and SSE2 meaning and proves that they agree.
`ConstexprXxh3` (with `ConstexprWords`) is the compile-time implementation. `Xxh3Injective` proves
that short keys never collide. `Xxh32` and `Xxh64` are the older members of the family. The modules
named `Known` compute hashes of given bytes as numbers, for every length class and each algorithm,
with the literal arithmetic of `HexWords`. Machine words are naturals with the wrap-around written
out; `Bits` has their bitwise algebra. Constants follow the xxHash fast digest algorithm
specification.

**Inline caches.** `IcModel` says what a cache means without any caching code: running the body
every time. It states the promise of a cache's user and proves what it is worth. `IcInterpreter` is
the one-entry cache in the bytecode metadata, `IcJit` the self-modifying chain of stubs; both refine
it over every run. `IcEffects` is the specialisation code, the stored state and the wrapper that
rebuilds captures; `IcArgs` the flat argument list between two passes; `TailDuplicate` the SSA
rewrite; `InlineSlab` and `X64Nop` the inline slab.

**Calls.** `CallFrame` and `TailCallFrame` are the moves that set up stack frames, `TailCallRun`
whole tail calls with the prologue of the callee and runs of them, `CallArgs` the description of a
call between passes. `ReadLocations` is a def-use worklist, and `ReadProvenance` what it means when
instructions run; `Base64` is the text encoding.

`dafny verify dfyconfig.toml` checks the whole project.

## Where the code and its comments differ, or a property has a condition

* The encoding loop of Base64 counts in 32 bits. It is right and ends exactly for inputs of less than
  2^32 bytes (`Base64.EncodeEndsIff`); the limit is not smaller because 2^32 - 1 is a multiple of three.
* Line breaking ends exactly when the line length is positive or the text empty
  (`Base64.LinebreaksEndIff`).
* The opcode arithmetic of fused interpreter caches sign-extends the old effect kind and zero-extends
  the new one, so it is right exactly when the old kind is below 128 or there was no entry
  (`IcInterpreter.OpcodeTracksKind`, with a failing case in `IcInterpreter.OpcodeLosesTrack`). The front
  end allows up to 249 kinds; a cache works in every run exactly when no entry of kind 128 or more can be
  replaced (`IcInterpreter.AllRunsKeepOpcodeIff`), and each run is right up to and including the
  replacement. A comment at deegen/deegen_ast_inline_cache.cpp:2295 says that the caller
  resets the opcode first; the code subtracts the old kind instead, and the model follows the code.
* The fixed order of moves of the not-in-place variadic tail call is right for every stack exactly when
  variadic results that are in the way are not moved onto the argument range
  (`TailCallFrame.OrderRightIffSafe`); results that lie behind the arguments, where calls return them,
  satisfy this.
* The XXH64 digest decides by its 64-bit length whether a stripe was consumed, which is right for less
  than 2^64 bytes; XXH32 keeps a separate flag and has no such limit.
* A specialised boolean capture is rebuilt from one bit and comes back exactly when the captured byte
  is 0 or 1.
* Inline caches agree with running the body over every run exactly when every hit is right
  (`IcModel.OneRefinesIffContract`). The promise stated at deegen/deegen_ast_inline_cache.cpp:1094-1098
  implies that, and where results tell captures apart nothing less does (`IcModel.TellingNeedsPromise`).
* The step `h ^ ((h >> 35) + len)` of a short hash is injective for every length up to 2^35 - 2^29 and not
  for the next one (`Xxh3Injective.AddLenShiftCollides`); the hash uses lengths from 4 to 8.

## Model

| member | source | states |
|---|---|---|
| `HashFunctions.HashMultiPieceString` | common_utils/hash_functions.h:48-79 | for every way of cutting a string into pieces: the hash of the concatenation, and its total length |
| `HashFunctions.FeedPieces` | common_utils/hash_functions.h:63-72 | the loop over the iterator feeds exactly the concatenation and sums the piece lengths |
| `HashFunctions.HashString` | common_utils/hash_functions.h:31-34 | the string hash is the unseeded one-shot XXH3 of its bytes |
| `HashFunctions.HashInteger` | common_utils/hash_functions.h:13-29 | the hash of an integer is that of its object representation |
| `HashFunctions.HashFloat` | common_utils/hash_functions.h:16-28 | a floating-point value is hashed by its bits, with both zeros normalised to one |
| `HashFunctions.HashPrimitiveInjective` | common_utils/hash_functions.h:13-29 | distinct integers of one type of at most 8 bytes never have the same hash |
| `HashFunctions.FloatHashIffEqual` | common_utils/hash_functions.h:16-28 | two floating-point numbers have equal hashes if and only if they compare equal |
| `HashFunctions.NormalizedZeros` | common_utils/hash_functions.h:16-26 | both zeros are hashed as the bit pattern 0, every other value as its own bits |
| `HashFunctions.NaNs` | common_utils/hash_functions.h:16-26 | NaN is the bit patterns with a full exponent and a fraction |
| `HashFunctions.Formats` | common_utils/hash_functions.h:16-26 | the formats are all patterns of 64 bits and all of 32 |
| `HashFunctions.RepresentationIsRead` | common_utils/hash_functions.h:28 | the bytes of an integer are in the order in which the hash loads them: four and eight of them are read as the value |
| `LittleEndian.IntBytesInjective` | common_utils/hash_functions.h:28 | values of one integer type have distinct object representations |
| `LittleEndian.TwosComplement` | common_utils/hash_functions.h:28 | a negative integer has the bytes of the unsigned one that is larger by the number of values |
| `Xxh3State.RunOps` | common_utils/thirdparty_xxhash_impl.h:4903-5155 | in every legal run of resets, updates and digests on one state, each digest is the one-shot hash, in the mode of the last reset, of all bytes fed since |
| `Xxh3State.State.Update` | common_utils/thirdparty_xxhash_impl.h:4981-5091 | keeps the state invariant: the accumulators are the stripe fold of the consumed prefix, the block counter is in range, a short buffer remembers the last 64 consumed bytes; appends the input to what has been fed |
| `Xxh3State.State.FillBuffer` | common_utils/thirdparty_xxhash_impl.h:5008-5012 | an input that fits is only buffered |
| `Xxh3State.State.CompleteBuffer` | common_utils/thirdparty_xxhash_impl.h:5018-5033 | a partly filled buffer is completed and its four stripes consumed |
| `Xxh3State.State.ConsumeBulk` | common_utils/thirdparty_xxhash_impl.h:5036-5079 | all but 1 to 256 of the remaining bytes are consumed past the buffer, and the stripe before them is remembered |
| `Xxh3State.State.BufferRest` | common_utils/thirdparty_xxhash_impl.h:5081-5086 | the remaining bytes are buffered |
| `Xxh3State.State.Digest` | common_utils/thirdparty_xxhash_impl.h:5140-5155 | the one-shot hash of all bytes fed since the last reset, in its mode; the state is not changed |
| `Xxh3State.State.DigestLong` | common_utils/thirdparty_xxhash_impl.h:5105-5137 | the final accumulators, also when the last stripe straddles bytes already consumed |
| `Xxh3State.RememberedStripe` | common_utils/thirdparty_xxhash_impl.h:5127-5136 | a short buffer and the buffer tail together are the last 64 bytes fed |
| `Xxh3State.BufferedMore` | common_utils/thirdparty_xxhash_impl.h:5008-5012 | buffering keeps what is pending and what is remembered |
| `Xxh3State.StripesConsumed` | common_utils/thirdparty_xxhash_impl.h:4957-4970 | consuming whole stripes from the front of the pending bytes, and the last of them is what must be remembered |
| `Xxh3State.State.constructor` | common_utils/thirdparty_xxhash_impl.h:1102-1129 | a new state, not yet reset |
| `Xxh3State.State.ResetInternal` | common_utils/thirdparty_xxhash_impl.h:4875-4900 | the fields after a reset; the secret size is an unsigned word, so a size below 64 wraps |
| `Xxh3State.State.Reset` | common_utils/thirdparty_xxhash_impl.h:4903-4909 | a fresh unseeded session |
| `Xxh3State.State.ResetWithSecret` | common_utils/thirdparty_xxhash_impl.h:4912-4920 | fails exactly for a missing secret or one of less than 136 bytes, with the fields reset all the same; otherwise a fresh session with the secret |
| `Xxh3State.State.ResetWithSeed` | common_utils/thirdparty_xxhash_impl.h:4923-4932 | a fresh session in the seeded mode, also when the derived secret on record is reused instead of being rebuilt; seed 0 is the unseeded mode |
| `Xxh3State.State.ResetWithSecretAndSeed` | common_utils/thirdparty_xxhash_impl.h:4935-4944 | fails exactly like the secret form and then leaves the state alone, otherwise a fresh session |
| `Xxh3Long.ConsumeStripes` | common_utils/thirdparty_xxhash_impl.h:4949-4970 | at most one block of stripes, from anywhere inside a block: the stripe run, with the scramble where it crosses the block end |
| `Xxh3Long.ConsumeByBlock` | common_utils/thirdparty_xxhash_impl.h:5036-5059 | to the end of the block, block by block, then single stripes: the stripe run over all but the last 1 to 64 bytes |
| `Xxh3Long.ConsumeByBuffer` | common_utils/thirdparty_xxhash_impl.h:5063-5079 | four stripes at a time: the stripe run over all but 1 to 256 bytes |
| `Xxh3Long.HashLongLoop` | common_utils/thirdparty_xxhash_impl.h:4568-4599 | block by block, then the partial block, then the last 64 bytes: the final accumulators of the stripe run |
| `Xxh3Long.HashLongTail` | common_utils/thirdparty_xxhash_impl.h:4588-4598 | after all full blocks: the partial block and the last 64 bytes complete the final accumulators of the whole input |
| `Xxh3Long.ConsumeBlock` | common_utils/thirdparty_xxhash_impl.h:4583-4586 | a whole block is a stretch of the stripe run that ends in a scramble |
| `Xxh3Long.Accumulate` | common_utils/thirdparty_xxhash_impl.h:4551-4566 | consecutive stripes against consecutive 8-byte shifts of the secret |
| `Xxh3Long.AccumulateIsContinue` | common_utils/thirdparty_xxhash_impl.h:4551-4566 | inside a block accumulating is the stripe run; at the block end the run has scrambled as well |
| `Xxh3Long.SoFarIsCountModBlock` | common_utils/thirdparty_xxhash_impl.h:4957-4970 | the block counter is the number of consumed stripes modulo the stripes per block |
| `Xxh3Long.ComputeHashLong` | common_utils/thirdparty_xxhash_impl.h:4639-4656 | the hash of a long input is the merge of the final accumulators of the stripe run |
| `StripeFold.FoldAppend` | common_utils/thirdparty_xxhash_impl.h:4981-5091 | the reference fold may be cut at any stripe boundary |
| `Xxh3OneShot.HashInternal` | common_utils/thirdparty_xxhash_impl.h:4731-4751 | dispatches over the four length classes: the short hash up to 240 bytes, the long hash beyond |
| `Xxh3OneShot.Xxh3Hash` | common_utils/thirdparty_xxhash_impl.h:4756-4760 | the unseeded one-shot hash of every input |
| `Xxh3OneShot.Xxh3HashWithSecret` | common_utils/thirdparty_xxhash_impl.h:4763-4767 | the one-shot hash of every input with a caller's secret |
| `Xxh3OneShot.Xxh3HashWithSeed` | common_utils/thirdparty_xxhash_impl.h:4694-4714 | the one-shot hash of every input with a seed, in builds with and without the shortcut for seed 0; a long input uses the secret derived from the seed |
| `Xxh3OneShot.Xxh3HashWithSecretAndSeed` | common_utils/thirdparty_xxhash_impl.h:4776-4783 | the one-shot hash with both: short inputs use the seed with the default secret, long ones the caller's secret |
| `Xxh3OneShot.SeedZeroIsUnseeded` | common_utils/thirdparty_xxhash_impl.h:791-797 | seed 0 gives the unseeded hash for every input, also where the secret is derived from it |
| `Xxh3OneShot.SeedIsSecret17to128` | common_utils/thirdparty_xxhash_impl.h:3644-3700 | for 17 to 128 bytes the seed acts as the secret derived from it: the seeded hash is the unseeded one with that secret |
| `Xxh3KnownShort.Empty` | common_utils/thirdparty_xxhash_impl.h:3603 | the published hash of nothing |
| `Xxh3KnownShort.EmptySeeded` | common_utils/thirdparty_xxhash_impl.h:3603 | the published hash of nothing with a seed |
| `Xxh3KnownShort.Abc` | common_utils/thirdparty_xxhash_impl.h:3541-3560 | the hash of three bytes with a seed, as a number |
| `Xxh3KnownShort.Six` | common_utils/thirdparty_xxhash_impl.h:3563-3577 | the published hash of the first six bytes of the library's self-test buffer with a seed |
| `Xxh3KnownShort.HelloWorld` | common_utils/thirdparty_xxhash_impl.h:3580-3599 | the published hash of eleven bytes |
| `Xxh3KnownShort.Twelve` | common_utils/thirdparty_xxhash_impl.h:3580-3599 | the published hash of twelve bytes with a seed |
| `Xxh3KnownMid.Hundred` | common_utils/thirdparty_xxhash_impl.h:3666-3700 | the hash of a hundred bytes with a caller's secret, as a number |
| `Xxh3KnownMid.More` | common_utils/thirdparty_xxhash_impl.h:3704-3755 | the hash of 145 bytes with a caller's secret, as a number |
| `Xxh3KnownLong.Long` | common_utils/thirdparty_xxhash_impl.h:4568-4656 | the hash of 256 bytes with a caller's secret, as a number |
| `Xxh3OneShot.ZeroSeedSecret` | common_utils/thirdparty_xxhash_impl.h:4417-4484 | the secret derived from seed 0 is the default secret |
| `Xxh3OneShot.ComputeHashLongWithSeed` | common_utils/thirdparty_xxhash_impl.h:4695-4713 | the long hash with the derived secret, whether or not the build takes the shortcut for seed 0 |
| `Xxh3OneShot.InitCustomSecret` | common_utils/thirdparty_xxhash_impl.h:4417-4484 | filling the secret in place, 16 bytes at a time, gives the default secret with the seed added to every even and subtracted from every odd 8-byte word |
| `Xxh3Short.ComputeLen17to128` | common_utils/thirdparty_xxhash_impl.h:3666-3700 | the nested conditionals compute the sum of the front and back chunks, which does not depend on the order |
| `Xxh3Short.ComputeLen17to128SizeOpt` | common_utils/thirdparty_xxhash_impl.h:3675-3681 | the counted-down loop of the size-optimised build computes the same |
| `Xxh3Short.InnermostFirst` | common_utils/thirdparty_xxhash_impl.h:3675-3697 | adding the innermost pair first or last gives the same sum modulo 2^64 |
| `Xxh3Short.ComputeLen129to240` | common_utils/thirdparty_xxhash_impl.h:3704-3755 | the counted loops of the 129 to 240 byte hash: eight rounds, an avalanche, the remaining rounds against the shifted secret, and the last chunk |
| `Xxh3Mix.PortableMultNeverOverflows` | common_utils/thirdparty_xxhash_impl.h:3438-3447 | no intermediate sum of the portable 64x64 multiply overflows 64 bits |
| `Xxh3Mix.PortableMultIsExact` | common_utils/thirdparty_xxhash_impl.h:3438-3452 | high and low word together are the exact product, for all operands |
| `Xxh3Mix.LowWordParts` | common_utils/thirdparty_xxhash_impl.h:3447 | the two parts of the low word do not meet, so or-ing is adding |
| `Xxh3Mix.PortableFoldAgrees` | common_utils/thirdparty_xxhash_impl.h:3466-3471 | the folded product is the same on targets with and without a wide multiply |
| `Xxh3Mix.ComputeMergeAccs` | common_utils/thirdparty_xxhash_impl.h:4609-4634 | the loop that folds the eight accumulators pairwise against the secret gives the merged sum, avalanched |
| `Xxh3Kernel.AccumulateScalar` | common_utils/thirdparty_xxhash_impl.h:4360-4375 | the in-place scalar loop gives every lane its neighbour's input and its own product, in whatever order |
| `Xxh3Kernel.ScalarRound` | common_utils/thirdparty_xxhash_impl.h:4337-4353 | one round updates two neighbouring lanes |
| `Xxh3Kernel.ScrambleScalar` | common_utils/thirdparty_xxhash_impl.h:4386-4415 | the in-place scalar scramble updates every lane by its own key |
| `Xxh3Kernel.AccumulateSse2` | common_utils/thirdparty_xxhash_impl.h:4034-4067 | the in-place SSE2 loop has the same effect as the scalar one for every state, stripe and secret |
| `Xxh3Kernel.ScrambleSse2` | common_utils/thirdparty_xxhash_impl.h:4069-4096 | the in-place SSE2 scramble has the same effect as the scalar one |
| `Xxh3Kernel.AccVecParts` | common_utils/thirdparty_xxhash_impl.h:4052-4065 | shuffles and even-word products compute both 64-bit lanes of a vector |
| `Xxh3Kernel.ScrambleVecParts` | common_utils/thirdparty_xxhash_impl.h:4082-4094 | a 64-bit product from two 32-bit products |
| `Xxh3Kernel.Sse2AccAgrees` | common_utils/thirdparty_xxhash_impl.h:4034-4067 | vector and lane forms agree as functions |
| `Xxh3Kernel.Sse2ScrambleAgrees` | common_utils/thirdparty_xxhash_impl.h:4069-4096 | vector and lane forms of the scramble agree as functions |
| `Xxh3Kernel.HashAgrees` | common_utils/thirdparty_xxhash_impl.h:4640-4655 | routines that agree pointwise give one hash for every input in every mode |
| `Xxh3Kernel.ScalarAndSse2Agree` | common_utils/thirdparty_xxhash_impl.h:4034-4096 | the SSE2 and scalar builds compute the same hash of every input in every mode |
| `Xxh3Injective.Len1to3Injective` | common_utils/thirdparty_xxhash_impl.h:3541-3560 | no two inputs of 1 to 3 bytes collide, whatever the secret and seed |
| `Xxh3Injective.Len4to8Injective` | common_utils/thirdparty_xxhash_impl.h:3563-3577 | no two inputs of the same length from 4 to 8 bytes collide |
| `Xxh3Injective.Xxh64AvalancheInjective` | common_utils/thirdparty_xxhash_impl.h:2443-2451 | the XXH64 avalanche is injective |
| `Xxh3Injective.RrmxmxInjective` | common_utils/thirdparty_xxhash_impl.h:3497-3505 | the rotate-xor-multiply mix is injective for every length up to 2^35 - 2^29; the hash uses lengths from 4 to 8 |
| `Xxh3Injective.RotXorInjective` | common_utils/thirdparty_xxhash_impl.h:3500 | xor with two rotations is injective, because eight applications are a rotation |
| `Xxh3Injective.AddLenShiftInjective` | common_utils/thirdparty_xxhash_impl.h:3502 | xor with the shifted word plus the length is injective for every length up to 2^35 - 2^29 |
| `Xxh3Injective.AddLenShiftCollides` | common_utils/thirdparty_xxhash_impl.h:3502 | for the next length two words collide, so that bound is the largest |
| `ConstexprXxh3.ConstXxh3` | common_utils/thirdparty_constexpr_xxh.h:296-304 | the compile-time unseeded hash equals the run-time one for every input |
| `ConstexprXxh3.ConstXxh3WithSecret` | common_utils/thirdparty_constexpr_xxh.h:306-316 | the compile-time hash with a secret equals the run-time one for every input and every secret of at least 136 bytes |
| `ConstexprXxh3.ConstXxh3WithSeed` | common_utils/thirdparty_constexpr_xxh.h:318-333 | the compile-time hash with a seed equals the run-time one for every input and seed, including the shortcut for seed 0 and the secret derived in place |
| `ConstexprXxh3.ConstInternal` | common_utils/thirdparty_constexpr_xxh.h:231-282 | the compile-time dispatch over six length classes agrees with the run-time dispatch over four |
| `ConstexprXxh3.ConstLen0to16` | common_utils/thirdparty_constexpr_xxh.h:236-260 | inputs of at most 16 bytes, read and joined by masks and shifts, hash to the run-time value |
| `ConstexprXxh3.Const17to128` | common_utils/thirdparty_constexpr_xxh.h:261-269 | the loop that walks from both ends computes what the nested conditionals compute |
| `ConstexprXxh3.Const129to240` | common_utils/thirdparty_constexpr_xxh.h:270-278 | the loops by byte offset hash 129 to 240 bytes to the run-time value |
| `ConstexprXxh3.ConstHashLong` | common_utils/thirdparty_constexpr_xxh.h:197-229 | the inlined long-input loops over an accumulator array give the run-time hash |
| `ConstexprXxh3.ConstAccumulate512` | common_utils/thirdparty_constexpr_xxh.h:186-195 | the same accumulators as the scalar routine |
| `ConstexprXxh3.ConstBlocks` | common_utils/thirdparty_constexpr_xxh.h:207-215 | the loops over all full blocks are the stripe run over those blocks |
| `ConstexprXxh3.ConstTail` | common_utils/thirdparty_constexpr_xxh.h:217-222 | the partial block and the last stripe complete the final accumulators of the whole input |
| `ConstexprXxh3.ConstMerge` | common_utils/thirdparty_constexpr_xxh.h:223-228 | the inlined merge is the run-time merge |
| `ConstexprXxh3.ConstDeriveSecret` | common_utils/thirdparty_constexpr_xxh.h:326-330 | writing the secret byte by byte gives the secret the run-time code derives |
| `ConstexprXxh3.ConstWriteLE64` | common_utils/thirdparty_constexpr_xxh.h:97-99 | the bytes written one by one are the little-endian representation |
| `ConstexprWords.ConstReadLE32` | common_utils/thirdparty_constexpr_xxh.h:75-79 | or-ing four shifted bytes reads the little-endian word |
| `ConstexprWords.ConstReadLE64` | common_utils/thirdparty_constexpr_xxh.h:92-95 | or-ing two halves reads the little-endian word |
| `ConstexprWords.ConstCombined` | common_utils/thirdparty_constexpr_xxh.h:240-242 | the four fields of a 1 to 3 byte input, or-ed in the order written |
| `ConstexprWords.Swap32Agrees` | common_utils/thirdparty_constexpr_xxh.h:70-73 | masks and shifts reverse the four bytes |
| `ConstexprWords.Swap64Agrees` | common_utils/thirdparty_constexpr_xxh.h:81-90 | masks and shifts reverse the eight bytes |
| `ConstexprWords.RotlAgrees` | common_utils/thirdparty_constexpr_xxh.h:167-168 | two shifts or-ed together are the rotation |
| `Xxh32.State.Update` | common_utils/thirdparty_xxhash_impl.h:2244-2297 | every chunking keeps: lanes are the fold of the consumed stripes, fewer than 16 bytes are pending, the length is kept modulo 2^32, and the flag says whether the true length reached 16 |
| `Xxh32.State.Digest` | common_utils/thirdparty_xxhash_impl.h:2299-2316 | the one-shot hash of all bytes fed since the last reset, however many |
| `Xxh32.CountLength` | common_utils/thirdparty_xxhash_impl.h:2256-2257 | the flag is set exactly when the true total reaches 16, although the counter wraps |
| `Xxh32.ConsumeStripes` | common_utils/thirdparty_xxhash_impl.h:2277-2286 | whole stripes are consumed while there are any |
| `Xxh32.OneShot` | common_utils/thirdparty_xxhash_impl.h:2157-2188 | the one-shot code, in every alignment and length, gives the fold of the 16-byte stripes finished with the tail |
| `Xxh32.ConsumeAll` | common_utils/thirdparty_xxhash_impl.h:2163-2177 | the do-while loop consumes exactly the whole stripes |
| `Xxh32.OneShotBySteps` | common_utils/thirdparty_xxhash_impl.h:2191-2199 | the size-optimised one-shot form, which goes through a state, computes the same |
| `Xxh32.FinalizeRerolled` | common_utils/thirdparty_xxhash_impl.h:2085-2096 | words while four bytes are left, then bytes |
| `Xxh32.FinalizeSwitch` | common_utils/thirdparty_xxhash_impl.h:2097-2136 | the jump table with its fall-throughs computes the same |
| `Xxh32.State.Reset` | common_utils/thirdparty_xxhash_impl.h:2231-2241 | a state that has been fed nothing, for the given seed, whatever it held before |
| `Xxh32Known.Fox` | common_utils/thirdparty_xxhash_impl.h:2157-2188 | the hash of 45 bytes, two stripes and a tail, as a number |
| `Xxh32Known.Empty` | common_utils/thirdparty_xxhash_impl.h:2181-2187 | the published hash of nothing |
| `Xxh32Known.EmptySeeded` | common_utils/thirdparty_xxhash_impl.h:2181-2187 | the published hash of nothing with a seed |
| `Xxh64.State.Update` | common_utils/thirdparty_xxhash_impl.h:2604-2653 | every chunking keeps: lanes are the fold of the consumed 32-byte stripes, fewer than 32 bytes are pending, and the length is kept modulo 2^64 |
| `Xxh64.State.Digest` | common_utils/thirdparty_xxhash_impl.h:2656-2674 | the one-shot hash of all bytes fed, whenever the 64-bit length still tells whether a stripe was consumed |
| `Xxh64.LengthTells` | common_utils/thirdparty_xxhash_impl.h:2661 | below 2^64 bytes the 64-bit length tells whether a 32-byte stripe was consumed |
| `Xxh64.OneShot` | common_utils/thirdparty_xxhash_impl.h:2515-2549 | the one-shot code gives the fold of the 32-byte stripes finished with the tail |
| `Xxh64.ConsumeAll` | common_utils/thirdparty_xxhash_impl.h:2521-2535 | the do-while loop consumes exactly the whole stripes |
| `Xxh64.Finalize` | common_utils/thirdparty_xxhash_impl.h:2471-2497 | only the length modulo 32 matters: eights, at most one four, single bytes |
| `Xxh64.OneShotBySteps` | common_utils/thirdparty_xxhash_impl.h:2553-2560 | the size-optimised one-shot form, which goes through a state, computes the same hash |
| `Xxh64.State.Reset` | common_utils/thirdparty_xxhash_impl.h:2592-2601 | a state that has been fed nothing, for the given seed, whatever it held before |
| `Xxh64Known.Fox` | common_utils/thirdparty_xxhash_impl.h:2515-2549 | the hash of 45 bytes, a stripe and a tail of eight, four and one, as a number |
| `Xxh64Known.Empty` | common_utils/thirdparty_xxhash_impl.h:2541-2548 | the published hash of nothing |
| `Xxh64Known.EmptySeeded` | common_utils/thirdparty_xxhash_impl.h:2541-2548 | the published hash of nothing with a seed |
| `IcEffects.EffectOrdinal` | deegen/deegen_ast_inline_cache.cpp:1795-1890 | the emitted eight-bit products and sums do not overflow, and yield the start ordinal plus the mixed-radix code of the specialisation |
| `IcEffects.ComputeWeights` | deegen/deegen_ast_inline_cache.cpp:1863-1870 | the weight of a digit is the product of the counts before it |
| `IcEffects.ConfigurationOf` | deegen/deegen_ast_inline_cache.cpp:588-614 | the constants of the wrapper with a given ordinal |
| `IcEffects.ConfigurationsExactly` | deegen/deegen_ast_inline_cache.cpp:588-614 | the wrappers are for every choice of a listed value per specialised capture, or of the general case where the list is not exhaustive, and for nothing else |
| `IcEffects.ConfigurationsDistinct` | deegen/deegen_ast_inline_cache.cpp:588-614 | no two wrappers are for the same choice |
| `IcEffects.DigitsOfCode` | deegen/deegen_ast_inline_cache.cpp:595-602 | the wrapper generator reads back exactly the options the getter coded |
| `IcEffects.CodeOfDigits` | deegen/deegen_ast_inline_cache.cpp:588-614 | every ordinal below the number of specialisations is the code of its options |
| `IcEffects.CodeBelow` | deegen/deegen_ast_inline_cache.cpp:476-488 | codes are below the number of specialisations |
| `IcEffects.WeightedSumIsCode` | deegen/deegen_ast_inline_cache.cpp:1872-1885 | the weighted sum is the mixed-radix code |
| `IcEffects.AssignStartOrdinals` | deegen/deegen_ast_inline_cache.cpp:1709-1716 | start ordinals are the running totals |
| `IcEffects.OrdinalsDisjoint` | deegen/deegen_ast_inline_cache.cpp:1709-1716 | ordinals of different effects or specialisations never coincide, and all are below the total |
| `IcEffects.EffectOf` | deegen/deegen_ast_inline_cache.cpp:1709-1716 | every ordinal below the total belongs to an effect |
| `IcEffects.BooleanComesBack` | deegen/deegen_ast_inline_cache.cpp:1840-1846 | a specialised boolean is rebuilt from one bit: the captured byte comes back if and only if it is 0 or 1 |
| `IcEffects.ConstantsAreCaptured` | deegen/deegen_ast_inline_cache.cpp:666-692 | a constant stored by the wrapper is the captured value; captures with full coverage always have one |
| `IcEffects.StoredExactly` | deegen/deegen_ast_inline_cache.cpp:2182-2217 | stored are exactly the body-computed captures that no exhaustive list of values covers, each once, in the order of the struct |
| `IcEffects.EncodeState` | deegen/deegen_ast_inline_cache.cpp:2182-2217 | stored captures are written one after the other, nothing else is touched |
| `IcEffects.DecodeState` | deegen/deegen_ast_inline_cache.cpp:2219-2243 | every stored capture is read back |
| `IcEffects.CompleteCapture` | deegen/deegen_ast_inline_cache.cpp:646-692 | the wrapper rebuilds the capture struct with this execution's fresh values, although captures with full coverage are not stored |
| `IcEffects.RebuildCapture` | deegen/deegen_ast_inline_cache.cpp:616-692 | the whole wrapper over the interpreter's stored state |
| `IcEffects.RebuildFromConstants` | deegen/deegen_ast_inline_cache.cpp:2880-2960 | the whole wrapper over constants in generated code |
| `IcModel.PromiseKeepsContract` | deegen/deegen_ast_inline_cache.cpp:1094-1098 | the user's promise - executions with one key call the same effect with the same body-computed captures, while captures of the main function are fresh - makes every hit right |
| `IcModel.FreshIsRebuilt` | deegen/deegen_ast_inline_cache.cpp:646-692 | constants of a key joined with an execution's fresh values are the capture struct its body would build |
| `IcModel.TellingNeedsPromise` | deegen/deegen_ast_inline_cache.cpp:1094-1098 | where results tell effects and captures apart, every hit is right if and only if the promise is kept |
| `IcModel.OneRefinesIffContract` | deegen/deegen_ast_inline_cache.cpp:1094-1098 | the one-entry cache returns in every run what running the body returns, if and only if every hit is right: an entry answers what the body would return for the same key |
| `IcModel.ManyRefinesIffContract` | deegen/deegen_ast_inline_cache.cpp:1094-1098 | a list of entries of any positive capacity, wherever new entries go, returns in every run what running the body returns, if and only if every hit is right |
| `IcModel.OneRefines` | deegen/deegen_ast_inline_cache.cpp:2401-2437 | if every hit is right, the one-entry cache equals trivial lowering over every run, starting from any cached entry that stems from an execution |
| `IcModel.ManyRefines` | deegen/deegen_ast_inline_cache.cpp:2401-2437 | if every hit is right, the list of entries equals trivial lowering over every run, starting from any entries that stem from executions |
| `IcModel.NeverCachesOne` | deegen/deegen_ast_inline_cache.cpp:2252-2262 | a run in which every execution returns or is declared uncacheable needs no promise: the one-entry cache stays empty and every result is that of the body |
| `IcModel.NeverCachesMany` | deegen/deegen_ast_inline_cache.cpp:2861-2873 | the same for the list of entries |
| `IcModel.KindNames` | deegen/deegen_ast_inline_cache.cpp:2139-2155 | an entry's effect kind is below the total and names its effect |
| `IcInterpreter.Metadata.Execute` | deegen/deegen_ast_inline_cache.cpp:1994-2136 | hit, miss, elided kind, unreachable default and fused implementations: each execution is one step of the one-entry policy; if it returns or is declared uncacheable, the entry stays; afterwards a fused opcode is still one of the bytecode's if and only if no entry of kind 128 or more was replaced |
| `IcInterpreter.Metadata.ExecuteAll` | deegen/deegen_ast_inline_cache.cpp:1931-2399 | what is executed of a run is a run of the one-entry policy, and equals running the body every time when the promise is kept, or when no execution is cacheable, and then the cache stays empty; the whole run is executed if and only if the opcode is kept, in particular without fusing or with at most 128 kinds |
| `IcInterpreter.Metadata.RunBody` | deegen/deegen_ast_inline_cache.cpp:2245-2381 | the slow path returns what the body returns; the entry becomes key, effect and captures of this execution exactly when it calls an effect without having declared itself uncacheable, and otherwise nothing changes; a fused opcode is kept exactly when no entry of kind 128 or more is replaced |
| `IcInterpreter.Metadata.UpdateEntry` | deegen/deegen_ast_inline_cache.cpp:2264-2336 | key, kind, opcode and state are overwritten consistently; a fused opcode is kept exactly when the old kind is below 128 or there was none |
| `IcInterpreter.Metadata.UpdateKind` | deegen/deegen_ast_inline_cache.cpp:2273-2325 | the effect kind and, if fused, the opcode, which names the new kind exactly when the old one is below 128 or there was none, and otherwise is none of the bytecode's |
| `IcInterpreter.Metadata.CallEffectMain` | deegen/deegen_ast_inline_cache.cpp:2141-2154 | the switch case of a kind runs its effect on the rebuilt capture struct |
| `IcInterpreter.Metadata.constructor` | deegen/deegen_ast_inline_cache.cpp:2007-2011 | metadata without an entry: impossible key if there is one, and effect kind 255 |
| `IcInterpreter.OpcodeTracksKind` | deegen/deegen_ast_inline_cache.cpp:2306-2320 | the adjusted opcode is that of the new kind if and only if there was no entry or the old kind is below 128 |
| `IcInterpreter.OpcodeLosesTrack` | deegen/deegen_ast_inline_cache.cpp:2306-2320 | replacing kind 128 by kind 0 leaves an opcode that is 256 too high |
| `IcInterpreter.OpcodeLost` | deegen/deegen_ast_inline_cache.cpp:2306-2320 | replacing a kind of 128 or more always leaves an opcode outside the bytecode's own |
| `IcInterpreter.AllRunsKeepOpcodeIff` | deegen/deegen_ast_inline_cache.cpp:2306-2320 | every run of a fused cache keeps its opcode if and only if no entry of kind 128 or more can be replaced by one for another key |
| `IcJit.Site.Execute` | deegen/deegen_ast_inline_cache.cpp:2847-3099 | each execution is one step of the many-entry policy, new stubs coming right behind the slab; if it returns or is declared uncacheable, the entries stay |
| `IcJit.ExecuteAll` | deegen/deegen_ast_inline_cache.cpp:2847-3099 | every run is a run of the many-entry policy, and equals running the body every time when the promise is kept, or when no execution is cacheable, and then the site stays empty |
| `IcJit.Site.Dispatch` | deegen/deegen_ast_inline_cache.cpp:3254-3274 | following the jumps hits exactly when some entry has the key, and answers as that entry |
| `IcJit.Site.RunBody` | deegen/deegen_ast_inline_cache.cpp:2858-3099 | returns what the body returns; a new entry is made exactly when the effect is cacheable and entries are below the maximum, in the inline slab exactly when that is free and the effect kind fits, otherwise as the newest stub |
| `IcJit.Site.PopulateSlab` | deegen/deegen_ast_inline_cache.cpp:4282-4320 | the slab takes over the destination of the jump it overwrites and comes first in the chain |
| `IcJit.Site.AddStub` | deegen/deegen_ast_inline_cache.cpp:3551-3725 | a new stub takes over the destination of the patchable jump and comes first of the stubs; keys stay distinct and the count correct |
| `IcJit.Site.MakeCase` | deegen/deegen_ast_inline_cache.cpp:2880-2960 | the specialisation and the constants of a new case |
| `IcJit.Site.RunCase` | deegen/deegen_ast_inline_cache.cpp:3254-3274 | a matching case answers as its entry |
| `IcJit.Site.constructor` | drt/jit_inline_cache_utils.h:95-104 | a site without entries jumps to the miss path |
| `IcJit.ChainOrder` | deegen/deegen_ast_inline_cache.cpp:3605-3723 | failed comparisons visit each stub once, newest first, and then the miss path; there is no cycle |
| `IcJit.StubAdded` | drt/jit_inline_cache_utils.cpp:23-33 | the list of stubs and the chain of jumps stay the same list |
| `IcJit.PatchedJump` | deegen/misc_llvm_helper.h:2070-2099 | a patched jump reaches its destination if and only if the distance fits 32 signed bits |
| `IcArgs.Parse` | deegen/deegen_ast_inline_cache.cpp:1586-1690 | accepts exactly the lists written for well-formed effects, with that effect, consuming every argument; well-formed means among the rest that there is one wrapper function per choice of constants |
| `IcArgs.ParseSpecs` | deegen/deegen_ast_inline_cache.cpp:1598-1634 | accepts exactly the nested lists of specialisations; the product of their counts is the number of specialisations of the effect |
| `IcArgs.OneFnPerChoice` | deegen/deegen_ast_inline_cache.cpp:1632-1643 | numbering the expected wrapper functions numbers the choices of a constant per specialised capture, or of the general case where the constants are not exhaustive: all of them, each once |
| `IcArgs.CoveredBoolean` | deegen/deegen_ast_inline_cache.cpp:1598-1690 | an exhaustively specialised boolean has two wrapper functions; its argument list item by item |
| `IcArgs.ParseSpec` | deegen/deegen_ast_inline_cache.cpp:1601-1631 | accepts exactly one written specialisation: coverage flag, value, count and that many constants of its type |
| `IcArgs.ParseState` | deegen/deegen_ast_inline_cache.cpp:1668-1688 | accepts exactly the written stored values with their ranges |
| `IcArgs.ParseMains` | deegen/deegen_ast_inline_cache.cpp:1644-1651 | true exactly if all of the arguments are functions |
| `IcArgs.WriteArgs` | deegen/deegen_ast_inline_cache.cpp:731-790 | the arguments pushed one by one are the flat encoding |
| `IcArgs.RoundTrip` | deegen/deegen_ast_inline_cache.cpp:731-790 | what is written is read back, for every well-formed effect |
| `IcArgs.EncodeInjective` | deegen/deegen_ast_inline_cache.cpp:731-790 | different effects are written differently |
| `TailDuplicate.AttemptRewrite` | deegen/deegen_ast_inline_cache.cpp:3788-3915 | in a function whose PHIs match the predecessors of their blocks, after the pass every path from every environment makes the same dispatch, and PHIs match predecessors again; exactly the selected blocks end in their own dispatch, every other terminator is unchanged; blocks that got copies of one block differ in an inserted number |
| `TailDuplicate.RewriteKeepsMeaning` | deegen/deegen_ast_inline_cache.cpp:3853-3893 | one rewrite keeps the dispatches of all runs, for every meaning of the instructions |
| `TailDuplicate.RewriteKeepsRuns` | deegen/deegen_ast_inline_cache.cpp:3853-3893 | block by block: the rewritten function needs at most one block less |
| `TailDuplicate.CopyDispatches` | deegen/deegen_ast_inline_cache.cpp:3853-3893 | the copy computes on the spot what jumping to the shared block computed |
| `TailDuplicate.CloneRuns` | deegen/deegen_ast_inline_cache.cpp:3859-3891 | PHIs replaced by their incoming values and operands remapped: every value agrees |
| `TailDuplicate.StaysCandidate` | deegen/deegen_ast_inline_cache.cpp:3853-3909 | rewriting one block leaves the others rewritable, even with the same destination |
| `TailDuplicate.RewriteKeepsJumps` | deegen/deegen_ast_inline_cache.cpp:3861-3909 | after a rewrite jumps stay inside the function, and the incoming blocks of every PHI are exactly the predecessors of its block |
| `TailDuplicate.JumpsAreTaken` | deegen/deegen_ast_inline_cache.cpp:3805-3818 | execution goes on only with blocks that the terminator names, and with each of them in some environment unless its condition is a literal |
| `TailDuplicate.RewrittenPredecessors` | deegen/deegen_ast_inline_cache.cpp:3861-3897 | the rewrite removes the one edge from the rewritten block to the shared one, and adds none |
| `TailDuplicate.ApartMore` | deegen/deegen_ast_inline_cache.cpp:3899-3909 | the number a rewrite leaves in the shared block is in every later copy and not in its own |
| `TailDuplicate.SsaFunction.SelectTargets` | deegen/deegen_ast_inline_cache.cpp:3792-3849 | the cache cases that jump unconditionally to a small dispatching block |
| `TailDuplicate.SsaFunction.DuplicateTails` | deegen/deegen_ast_inline_cache.cpp:3851-3909 | rewriting the whole list of blocks one after the other keeps the dispatches of all runs and the match of PHIs and predecessors; each of them ends in its own dispatch and no other terminator changes; of two copies of one block the later has a number that the earlier has not |
| `TailDuplicate.SsaFunction.DuplicateTail` | deegen/deegen_ast_inline_cache.cpp:3853-3909 | walking the shared block and editing both blocks in place performs exactly the rewrite whose meaning is proved |
| `TailDuplicate.SsaFunction.VisitInst` | deegen/deegen_ast_inline_cache.cpp:3859-3891 | one instruction of the shared block: a PHI gives its incoming value and loses the edge, anything else is cloned with remapped operands |
| `TailDuplicate.SsaFunction.RemapOperands` | deegen/deegen_ast_inline_cache.cpp:3878-3885 | every operand that was cloned is replaced, each once |
| `InlineSlab.ChooseSlab` | deegen/deegen_ast_inline_cache.cpp:4074-4156 | a slab is used if and only if enough effects have at most 64 bytes; then enough effects remain, and the size lies between the least covering size S and min(S + 12, 64) |
| `InlineSlab.SortSizes` | deegen/deegen_ast_inline_cache.cpp:4100-4105 | the sorted list has, for every bound, as many elements up to it as the given list |
| `InlineSlab.RankOf` | deegen/deegen_ast_inline_cache.cpp:4108 | the element at a position of the sorted list is the least size covering more than that many |
| `InlineSlab.MaxUpTo` | deegen/deegen_ast_inline_cache.cpp:4123-4131 | the largest size within the limit |
| `InlineSlab.RemoveTooLarge` | deegen/deegen_ast_inline_cache.cpp:4135-4150 | exactly the effects that fit are kept |
| `InlineSlab.Pad` | deegen/deegen_ast_inline_cache.cpp:4158-4184 | code of exactly the slab size that starts with the effect's code and is left exactly at the end; behind a removed jump, 16 bytes or more are filled with a short jump and NOPs, everything else with NOPs |
| `InlineSlab.MakeSlab` | deegen/deegen_ast_inline_cache.cpp:4074-4184 | a slab is made if and only if enough effects have at most 64 bytes; then enough are kept, each is padded to exactly the slab size, and execution leaves the padding exactly at the slab end |
| `X64Nop.FillWithNops` | common_utils/x64_multi_byte_nop_instruction.h:43-53 | as many 15-byte NOPs as fit, then one for the rest, and nothing outside |
| `X64Nop.TableIsNops` | common_utils/x64_multi_byte_nop_instruction.h:8-33 | every table entry decodes as one NOP of its length, whatever follows |
| `X64Nop.NopsLand` | common_utils/x64_multi_byte_nop_instruction.h:43-53 | executing the padding passes whole NOPs and arrives exactly at its end |
| `X64Nop.JumpLands` | deegen/deegen_ast_inline_cache.cpp:4169-4181 | a short jump over the rest of the padding arrives exactly at its end, for every distance the short form can hold |
| `CallFrame.CallInPlace` | deegen/deegen_ast_make_call.cpp:409-444 | the new frame stands at the argument range and holds it and then the variadic results; below its header nothing changes |
| `CallFrame.CallNotInPlace` | deegen/deegen_ast_make_call.cpp:445-531 | the new frame stands a header behind the end of the current one and holds the concatenated arguments and variadic results, wherever the results lay; no slot of the current frame changes |
| `CallFrame.ValueOfSingle` | deegen/deegen_ast_make_call.cpp:511-531 | a single argument is passed at its offset, which is the number of values before it |
| `CallFrame.ValueInRange` | deegen/deegen_ast_make_call.cpp:511-531 | a range is passed slot by slot from its offset on |
| `CallFrame.OffsetsGrow` | deegen/deegen_ast_make_call.cpp:511-531 | offsets of consecutive arguments are one value, or the values of a range, apart |
| `CallFrame.StoreArgs` | deegen/deegen_ast_make_call.cpp:511-531 | the loop that stores and copies arguments one after the other |
| `CallFrame.CopyForward` | annotated/deegen_common_snippets/simple_left_to_right_copy_may_overcopy.cpp:4-34 | the hand-written copy by pairs is a move whenever the destination does not start inside the source |
| `CallFrame.PopulateHeader` | annotated/deegen_common_snippets/populate_new_call_frame_header.cpp:4-19 | the header of a new frame holds callee, caller frame, return address and call site, and nothing else changes |
| `CallFrame.SinglesComplete` | deegen/deegen_ast_make_call.cpp:626-648 | storing single arguments around a range in place completes the argument list |
| `CallFrame.PlaceArgsRight` | deegen/deegen_ast_make_call.cpp:511-531 | ranges below the destination are copied before anything clobbers them |
| `TailCallFrame.TailCallInPlace` | deegen/deegen_ast_make_call.cpp:572-591 | a tail call of one argument range: the frame that begins where the current one truly began holds the values the range had |
| `TailCallFrame.TailCallNotInPlace` | deegen/deegen_ast_make_call.cpp:593-652 | moving the range first and storing single arguments around it leaves the concatenated arguments at the true beginning of the frame |
| `TailCallFrame.TailCallVariadicInPlace` | deegen/deegen_ast_make_call.cpp:656-704 | arguments, then variadic results behind them, then the whole frame moved, with copies that overrun: the new frame holds both |
| `TailCallFrame.TailCallVariadicNotInPlace` | deegen/deegen_ast_make_call.cpp:705-811 | results moved first if they are in the way, otherwise last: the new frame holds arguments and results whenever the order is safe |
| `TailCallFrame.OrderRightIffSafe` | deegen/deegen_ast_make_call.cpp:705-718 | that order is right for every stack if and only if results in the way are not moved onto the argument range |
| `TailCallFrame.UnsafeOrderClobbers` | deegen/deegen_ast_make_call.cpp:705-718 | whenever the order is not safe, a stack of distinct values shows an argument that is lost |
| `TailCallFrame.BehindArgsIsSafe` | deegen/deegen_ast_make_call.cpp:711-713 | the order is safe when the results lie behind the argument range |
| `TailCallFrame.MoveHeader` | annotated/deegen_common_snippets/move_call_frame_header_for_tail_call.cpp:6-22 | the header moves to the true beginning of the frame |
| `TailCallFrame.MoveFrame` | annotated/deegen_common_snippets/move_call_frame_for_tail_call.cpp:6-50 | header and arguments move to the true beginning of the frame, by the copy that overruns |
| `TailCallFrame.MoveCompletes` | annotated/deegen_common_snippets/move_call_frame_for_tail_call.cpp:6-50 | after header and arguments have moved, the new frame has replaced the old one and holds the values |
| `TailCallFrame.FixupVariadic` | annotated/deegen_common_snippets/fixup_stack_frame_for_variadic_arg_function.cpp:38-77 | the frame of a function that takes variadic arguments: one copy of header and fixed parameters, and for a tail call a move back over the gap |
| `TailCallFrame.FixedUpEntered` | annotated/deegen_common_snippets/fixup_stack_frame_for_variadic_arg_function.cpp:38-77 | in that frame the fixed parameters stand behind the header and the others below it; after a tail call it begins where the old one began |
| `TailCallFrame.PadWithNil` | annotated/deegen_common_snippets/fixup_stack_frame_for_variadic_arg_function.cpp:8-37 | a callee with too few arguments finds nil in the missing parameters; every other slot of the stack, inside and below the frame, is what it was |
| `TailCallRun.MoveArguments` | deegen/deegen_ast_make_call.cpp:543-811 | any of the four kinds of tail call leaves the values it passes in a frame that has replaced the current one |
| `TailCallRun.EnterCallee` | deegen/deegen_function_entry_logic_creator.cpp:250-302 | the callee's prologue: nil for missing parameters, with or without branches, or the frame fixed up for variadic arguments, or nothing |
| `TailCallRun.PrologueReplaces` | deegen/deegen_function_entry_logic_creator.cpp:250-302 | the prologue keeps where the frame begins, everything below it, and whom it returns to |
| `TailCallRun.PrologueReceives` | deegen/deegen_function_entry_logic_creator.cpp:250-302 | after the prologue fixed parameters and variadic arguments are the values that were passed, padded with nil |
| `TailCallRun.MakeTailCall` | deegen/deegen_ast_make_call.cpp:543-811 | a whole tail call, of any kind and into any function: the callee receives exactly the values the call passes, by the moves and the prologue that the run theorem is about |
| `TailCallRun.TailCallsDoNotGrow` | deegen/deegen_ast_make_call.cpp:545-552 | over every run of whole tail calls, with any writes of the functions into their frames in between: the frame begins where the first began, everything below is untouched, and the last callee returns to the first one's caller |
| `TailCallRun.Execute` | deegen/deegen_ast_make_call.cpp:543-811 | a machine that executes writes and tail calls as long as the stack has room performs such a run |
| `CallArgs.ParseFromApiUse` | deegen/deegen_ast_make_call.cpp:13-62 | succeeds with a description if and only if it is well-formed and the list is its flattening |
| `CallArgs.ParseArgList` | deegen/deegen_ast_make_call.cpp:40-59 | single arguments and ranges are told apart by type |
| `CallArgs.Gather` | deegen/deegen_ast_make_call.cpp:196-322 | a chain of reports is accepted exactly when it is complete, and flattened in order |
| `CallArgs.GatherAndParse` | deegen/deegen_ast_make_call.cpp:196-322 | what a complete chain reports is what the lowering reads |
| `ReadLocations.CollectReads` | deegen/deegen_analyze_read_locations.cpp:14-93 | gives up if and only if a derived value is stored as a value or passed to a call; otherwise collects exactly the derived values that are read through; terminates |
| `ReadLocations.TryAnalyze` | deegen/deegen_analyze_read_locations.cpp:95-126 | succeeds if and only if no derived value escapes and every one that is read through has an expression, and then returns exactly those expressions |
| `ReadProvenance.EscapesIffInSomeRun` | deegen/deegen_analyze_read_locations.cpp:37-75 | the analysis gives up if and only if some run of the instructions, in any order, stores a value computed from the pointer or passes one to a call |
| `ReadProvenance.ReadsIffInSomeRun` | deegen/deegen_analyze_read_locations.cpp:64-92 | if it does not, the values it reports are exactly those that some run reads through |
| `ReadProvenance.StepTracked` | deegen/deegen_analyze_read_locations.cpp:37-91 | no instruction computes a value from the pointer, reads through one or lets one escape without the analysis knowing |
| `ReadProvenance.PathRuns` | deegen/deegen_analyze_read_locations.cpp:78-91 | executing the instructions along a path of uses computes its last value from the pointer |
| `ReadLocations.VisitUse` | deegen/deegen_analyze_read_locations.cpp:37-91 | one use: either it lets the value escape, or it is recorded as an address read through, or it passes the value on to the queue |
| `ReadLocations.UsesOf` | deegen/deegen_analyze_read_locations.cpp:37 | all uses of a value |
| `ReadLocations.ClosedContains` | deegen/deegen_analyze_read_locations.cpp:32-92 | a set closed under the edges contains everything derived |
| `Base64.RoundTrip` | deegen/base64_util.cpp:113-215 | whatever bytes are encoded, with either alphabet, decoding gives them back |
| `Base64.EncodeLoop` | deegen/base64_util.cpp:113-162 | the loop with its 32-bit position encodes every input of less than 2^32 bytes |
| `Base64.EncodeEndsIff` | deegen/base64_util.cpp:133-158 | the 32-bit position ever reaches the end of the input if and only if the input has less than 2^32 bytes |
| `Base64.DecodeLoop` | deegen/base64_util.cpp:165-215 | the loop of the decoder, with its errors, decodes inputs of any length group by group |
| `Base64.DecodeStep` | deegen/base64_util.cpp:195-212 | one group of four characters or an error; of a short last group no character behind the terminating zero is read |
| `Base64.Base64Decode` | deegen/base64_util.cpp:165-219 | the decoder, with or without removal of line breaks first |
| `Base64.CharStands` | deegen/base64_util.cpp:46-73 | every character stands for its value in both alphabets |
| `Base64.NothingElseStands` | deegen/base64_util.cpp:46-73 | the decoder reads the characters of the two alphabets and no others |
| `Base64.EncodedCharacters` | deegen/base64_util.cpp:113-162 | the text consists of characters of the alphabet asked for, with + and / or with - and _, and of as much padding, = or a full stop, as the number of bytes needs |
| `Base64.TestVectors` | deegen/base64_util.cpp:113-162 | test vectors of RFC 4648, section 10, and the last two characters of both alphabets |
| `Base64.InsertLinebreaks` | deegen/base64_util.cpp:75-91 | the loop inserts a break behind every line of the given length, although the text grows while it is walked; it ends after finitely many of its rounds |
| `Base64.LinebreaksEndIff` | deegen/base64_util.cpp:83-88 | some number of rounds of the loop, which insert a break and move the position, brings the position to the end of the growing text if and only if lines are not empty or there is no text |
| `Base64.LineLengths` | deegen/base64_util.cpp:75-91 | all lines but the last have the given length, and the last is not longer |
| `Base64.BrokenUndone` | deegen/base64_util.cpp:75-91 | removing the breaks gives the text back |
| `Base64.EncodeWithLineBreaks` | deegen/base64_util.cpp:93-106 | encoding, breaking into lines and decoding gives the bytes back |

## Left out

* Empty inputs given as null pointers: byte strings are sequences, so a null pointer of length 0 is the
  empty sequence.
* `Xxh3Long.Accumulate` and the streaming state take the accumulators as a value, because the routines
  are function values there; the update in place is proved in `Xxh3Kernel` and `ConstexprXxh3`.
* XXH3 with 128-bit results, secret generation, canonical representations, and state allocation.
* The AVX2, AVX512, NEON and VSX routines, prefetching, alignment and big-endian targets; the SSE2 form
  of the secret derivation.
* Floating-point hashing of formats other than IEEE 754 single and double precision.
- Xxh3State.State.Update: does not model a total length of 2^64 bytes or more, which the source's 64-bit counter cannot hold.
- HashFunctions.HashMultiPieceString: does not model strings of 2^64 bytes or more, for the same reason.
- Xxh64.State.Digest: after 2^64 or more bytes nothing is claimed unless the wrapped length still tells whether a stripe was consumed; no one-shot hash of such an input can be called.
- IcInterpreter.Metadata.ExecuteAll: once a fused opcode is none of the bytecode's, what the interpreter does with it is not modelled; the run ends there.
* Effects of an inline cache on the world are part of its result value; recursion into the same cache
  site while its body runs is not modelled.
* The JIT allocator is a source of unused addresses within jump range; code of a stub is its key,
  constants and miss destination; register patching and data sections are not part of this model.
* Parsing of the LLVM modules around the inline cache passes, lambda capture analysis, and removal of
  unreachable blocks after tail duplication.
* The fraction of effects an inline slab must cover is a parameter, at least 1.
* The expression analysis used by the read-location analysis is a parameter.
* Unrolled forms of the stack copies for constant lengths, which are ordinary moves, and of the nil
  padding, which writes one slot too many.
* SOM call semantics, under which functions have no prologue and frames are entered as they are set up.
* The jump from the caller to the callee's entry, and what a function reads and computes between its
  entry and its tail call, other than the slots it writes.
* Base64 streams through templates over string types, which all share the modelled code.
