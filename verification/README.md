# A Dafny model of randp

randp hands out random bytes from a small pool per thread. The pool is refilled by a counter generator built on the
AES round instructions (128-bit vectors) or their VAES form (256-bit vectors), the generator is reseeded with
`getentropy` after a fixed number of refills, and a bounded-integer sampler sits on top. The repository also carries
`amalgamate.py`, which turns a C source file and its quoted includes into a single header. This project models the
pool, the generators, the sampler and the amalgamator, and proves what they promise.

Run `dafny verify dfyconfig.toml` in this directory to check it.

## The main results

* **One ideal byte stream.** `Pool.StreamByte` says what byte `t` of the output is in terms of the sequence of entropy
  draws alone: which draw, which generator output, which byte of it. Nothing in the definition mentions a buffer. Any
  sequence of requests to the pool delivers exactly the first bytes of that stream (`Pool.RunDeliversPrefix`), so how
  requests are cut does not matter (`Pool.CutsDoNotMatter`), for every pool size, reseed interval, number of keys,
  number of rounds and block function that the static asserts admit. The class `RandomPool.Randp`, with its array,
  countdown and loop, is proved to do the same (`RandomPool.Randp.Fetch`).
* **Forks and threads.** Two state machines interleave calls at the granularity of one loop iteration. A forked child
  never gives out bytes that its parent had buffered, no two processes use one draw of entropy, and each process behaves
  as if it had the machine to itself (`ForkHistory.RunsAsIfAlone`). Threads that share
  a pool behind a mutex are given consecutive stretches of the stream in the order in which they took the lock, each
  call as many bytes as it asked for, and no call can get stuck.
* **The generators.** The AES rounds are written out from FIPS 197 down to arithmetic in GF(2^8), and stated against its
  equations byte by byte in memory order and against its worked examples. Every block of the default builds is spelled
  out from the draw (`Seedings.DefaultBlock`, `Seedings.DefaultVaesBlock`). Each round, and so
  the whole cipher, is proved to be a permutation; the counter's period is exactly 2^64; hence no 16-byte block comes
  twice within a seeding. The VAES generator is two AES generators side by side. Swapping lanes commutes with a round
  just when the key's lanes are equal, which is the defect that key rectification removes.
* **The sampler.** Lemire's fast path returns the value of plain rejection sampling and draws as many words, on every
  source of words that has an acceptable one; every result is given by exactly `floor(2^L / s)` words, and by equally
  many of the k-word sequences for every k (`Sampler.CountRunsFor`).
* **The amalgamator.** The include order holds the reachable files once each and ends with the root; it is topological
  just when no reachable file has an include that leads back to it; the traversal fails just when some reachable include
  leads nowhere; and the text written is a rearrangement of in-place include-once expansion, with the exact condition
  for the two to be equal.

## Two things the code does not do

* `include_order_for` documents a topological order (amalgamate.py:54-68). When the files it reaches include each other
  in a cycle there is none (`DependencyOrder.CyclesHaveNoOrder`), and the code then returns a list all the same, as it
  does for two files that include each other (`DependencyOrder.CycleIsListedAnyway`). The model follows the code;
  `DependencyOrder.TopologicalIffAcyclic` gives the exact condition.
* For no round key does AESDEC undo AESENC: it adds the key at the other end of the round. Whatever the key, of the 256
  blocks that differ in one given byte alone at most one is recovered (`AesInverse.RecoveredAtMostOnce`,
  `AesInverse.NoKeyUndoes`), and `AesInverse.RecoveredExactly` says which blocks are. Some are: under the zero key every
  block of one repeated byte is (`AesInverse.RecoveredRepeated`). `Aes.DecRoundInsideMixUndoesEncRound` says what does
  undo a round. For the ciphers, the result is general for one key and one round, and for the default three keys of one
  round there are a concrete block and keys (`AesInverse.DefaultCipherNotUndone`).

## Modules

| module | models |
|---|---|
| Arithmetic, Bytes | quotients and remainders; little-endian words in memory |
| GaloisField, MixColumns, Aes | sections 4, 5.1 and 5.3 of FIPS 197: the AESENC and AESDEC rounds |
| Generator, CounterPrng | the counter generator over any block type, as functions and as the structure in memory |
| Pool | the ideal stream, the pool as a value, its invariant, and the theorems about runs |
| RandomPool | the pool structure in memory and the public functions, proved against Pool and Sampler |
| Sampler | the nearly divisionless sampler and its counting theorems, for any modulus |
| Aes128, Aes128Generator | 128-bit vectors, lanes, key rectification; period, distinct blocks, lane symmetry |
| AesReference | the rounds against the equations and examples of FIPS 197, on bytes in memory order |
| AesInverse | how far AESDEC is from undoing AESENC |
| Aes256, AesStream, Seedings | 256-bit vectors as pairs; what the generators mean for the stream; the default builds |
| ForkMachine, ForkHistory | processes that fork, and one process's part in a history |
| MutexMachine | threads that share a pool |
| IncludeOrder, DependencyOrder, Amalgam | the include traversal, its order and failures, and the text written |

## Model

| member | source | states |
|---|---|---|
| Pool.RunDeliversPrefix | src/randp.c:186-201 | from zeroed memory, any sequence of requests (zero, tiny or far larger than the pool) delivers together the first bytes of the one ideal stream |
| Pool.CutsDoNotMatter | benchmarks/randp.hpp:199-215 | two runs with the same total deliver the same bytes, whatever the request sizes, and even with different pool sizes as long as a seeding covers equally many bytes |
| Pool.RequestDelivers | src/randp.c:167-202 | from any reachable state, mid-pool included, a request of n bytes delivers the next n bytes of the stream and keeps the invariant |
| Pool.IterateInv | src/randp.c:186-201 | each loop iteration moves between 1 and n bytes, the next ones of the stream, and keeps: the first P - remaining bytes are zero, the last ones are the undelivered tail of the refill, 0 <= remaining < P, 0 <= countdown < R |
| Pool.RegenInv | src/randp.c:105-122 | a refill of an empty pool holds exactly the next P bytes of the stream, across a reseed or not |
| Pool.TakeInv | src/randp.c:191-200 | copying and wiping hands out the next stream bytes and leaves the rest of the refill undisturbed |
| Pool.RunAccounting | src/randp.c:105-122 | after requests totalling T bytes there have been exactly ceil(T/P) refills and ceil(T/(P*R)) reseeds |
| Seedings.SeedingServes | src/randp-defaults.h:43-52 | every draw but the last has served exactly P*R bytes, the last between 1 and P*R, counted over stream positions |
| Seedings.DefaultsReseedTogether | src/randp-defaults.h:50-56 | for equal totals the default AES and VAES builds reseed equally often, every 262144 bytes, and VAES refills half as often |
| Seedings.DefaultsValid | src/randp.c:76-80 | the default configurations meet the static asserts and cover 262144 bytes per seeding |
| Seedings.DefaultBlock | src/randp-defaults.h:13-43 | 16-byte block i of any seeding of the default AES build is three AESENC rounds, under the three drawn keys in order, each with the mask added if its lanes are equal, of the drawn counter advanced by i times the first two primes |
| Seedings.DefaultVaesBlock | src/randp-defaults.h:13-52 | blocks 2i and 2i+1 of the default VAES build are the same of the low and of the high halves, the latter with the other two primes and the other mask |
| Seedings.DefaultNeverRepeats | src/randp-defaults.h:13-43 | the default AES build hands out 16384 pairwise different 16-byte blocks per seeding |
| RandomPool.Randp.constructor | src/randp.c:170-182 | the structure in fresh, zeroed memory stands at the start of the stream |
| RandomPool.Randp.Refill | src/randp.c:105-122 | the in-place refill, reseeding first when the countdown is zero, gives the state the pool's value function gives |
| RandomPool.CopyAndWipe | src/randp.c:195-196 | m bytes arrive in the caller's buffer unchanged, exactly those are zeroed in the pool, and everything else stays |
| RandomPool.Randp.Step | src/randp.c:188-200 | one iteration on the arrays: the new structure and the bytes appended to the buffer are those of the value-level iteration |
| RandomPool.Randp.Fetch | src/randp.c:167-202 | randp_bytes ends, fills exactly the first n bytes of the buffer with the next n stream bytes, and leaves the rest of the buffer alone |
| RandomPool.Randp.U8 | src/randp.c:204-214 | one stream byte |
| RandomPool.Randp.U16 | src/randp.c:216-226 | the next two stream bytes as a little-endian word |
| RandomPool.Randp.U32 | src/randp.c:228-238 | the next four stream bytes as a little-endian word |
| RandomPool.Randp.U64 | src/randp.c:240-250 | the next eight stream bytes, equal to two consecutive 32-bit draws with the first in the low half |
| RandomPool.WordIsTwoHalves | src/randp.c:232-250 | the same for any word width and any stream position, across refills and reseeds |
| RandomPool.Randp.NearlyDivisionless | src/nearlydivisionless.h:37-58 | over the stream's words, the loop returns plain rejection's value, consumes w bytes per word drawn, and terminates when an acceptable word lies ahead |
| RandomPool.Randp.LtU32 | src/randp.c:260-266 | a bound up to 1 gives 0 and leaves the state untouched; otherwise plain rejection modulo 2^32 on the remaining stream, 4 bytes per word |
| RandomPool.Randp.LtU64 | src/randp.c:276-282 | the same modulo 2^64, 8 bytes per word |
| Sampler.FastIsPlain | src/nearlydivisionless.h:45-57 | the version that computes the threshold only when needed returns the same value and draws as many words as the one that always compares with 2^L mod s |
| Sampler.ThresholdIsRemainder | src/nearlydivisionless.h:50-51 | the wrapped (-s) % s is 2^L mod s |
| Sampler.PlainIsFirst | src/nearlydivisionless.h:52-57 | the sampler's value comes from the first accepted word, and every word before it was rejected |
| Sampler.PickInRange | src/nearlydivisionless.h:47-57 | the product is below s * 2^L, so it fits the double-width type, and the result is below s |
| Sampler.Uniform | src/nearlydivisionless.h:47-57 | for every s and every j < s exactly floor(2^L / s) words are accepted and give j |
| Sampler.CountRejected | src/nearlydivisionless.h:48-56 | exactly 2^L mod s words are rejected, fewer than half of all |
| Sampler.CountRejectedRuns | src/nearlydivisionless.h:52-55 | exactly (2^L mod s)^k of the k-word sequences are rejected throughout |
| Sampler.CountRunsFor | src/nearlydivisionless.h:45-57 | for every k, exactly floor(2^L / s) times the sum over i < k of (2^L mod s)^i (2^L)^(k-1-i) of the k-word sequences make the sampler return j, the same number for every j < s |
| Sampler.RunsForAre | src/nearlydivisionless.h:52-57 | what that count counts: k words in range whose first accepted one gives j |
| Sampler.RunDecides | src/nearlydivisionless.h:45-57 | on every source that begins with such words the function itself returns j and draws up to that word |
| Sampler.RejectedRunsAre | src/nearlydivisionless.h:52-55 | what that count counts: k words, each in range and not accepted |
| Generator.FillAt | src/aes_ctr_128_prng.h:88-104 | block i of a fill depends on the state only through the keys and the counter i increments on; the fill leaves the keys alone |
| Generator.FillCompose | benchmarks/aes_ctr_prng.hpp:177-204 | filling n and then m blocks equals filling n + m |
| Generator.CipherIsTrail | src/aes-128-utils.h:72-106 | the nested loops make Nk*Nr rounds, and round i of them is under key i / Nr |
| Generator.DaviesMeyerFeedsForward | src/aes_ctr_128_prng.h:141-184 | block i filled with Davies-Meyer is block i filled without it, xor the counter of that block; the state left is the same |
| Aes128Generator.DaviesMeyerIsCounter | src/aes-128-utils.h:119-140 | block i of the one mode xor block i of the other is the i-th counter, for any keys and either direction |
| Aes256.DaviesMeyerIsCounter256 | src/aes-256-utils.h:119-140 | the same in the VAES build, half by half |
| CounterPrng.CtrPrng.Reseed | src/aes_ctr_128_prng.h:56-66 | the whole structure is overwritten by the draw, then every key rectified in place, the counter as drawn |
| CounterPrng.CtrPrng.Encipher | src/aes-128-utils.h:72-106 | the nested loops apply the keys in order, each for the given number of rounds |
| CounterPrng.CtrPrng.FillBlocks | src/aes_ctr_128_prng.h:88-184 | in all four modes, the loop with the counter in a local variable writes the bytes, and leaves the state, of one that updates the structure at every step; nothing past the blocks is written |
| Aes128Generator.CtrLanes | src/aes_ctr_128_prng.h:93-100 | each lane of the counter after i steps is (start + i * increment) mod 2^64 |
| Aes128.BytesAreLanes | src/aes-128-utils.h:22-34 | a vector in memory is its low lane and then its high lane, each least significant byte first |
| Aes128Generator.CtrPeriod | src/aes_ctr_128_prng.h:81-87 | with odd increments two counter values agree just when their indices agree modulo 2^64 |
| Aes128Generator.IncrementsOdd | src/aes-128-utils.h:22-34 | which prime steps which lane; all odd, no two lanes alike |
| GaloisField.XTimeIsReduction | src/aes-128-utils.h:79 | doubling is section 4.2.1 of FIPS 197: shift, and add {1b} when a bit falls out |
| GaloisField.SquareIsMul | src/aes-128-utils.h:79 | the linear form of squaring that inversion uses is the field's product of a byte with itself |
| GaloisField.InverseIsInverse | src/aes-128-utils.h:79 | the S-box's inversion is multiplicative inversion in GF(2^8) |
| MixColumns.MixRoundTrip | src/aes-128-utils.h:72-106 | MixColumns and InvMixColumns of FIPS 197 undo each other, both ways |
| MixColumns.InvMixIsCube | src/aes-128-utils.h:95-106 | InvMixColumns is MixColumns applied three times |
| AesReference.AffineBits | src/aes-128-utils.h:79 | equation 5.1 of FIPS 197 for each bit of the S-box's affine map |
| AesReference.ShiftRowsMoves | src/aes-128-utils.h:79 | section 5.1.2 of FIPS 197 on memory-order bytes: byte 4c+r of ShiftRows comes from byte 4((c+r)%4)+r, and InvShiftRows puts it back |
| AesReference.EncRoundBytes | src/aes-128-utils.h:79 | every byte of AESENC's result in memory, as the FIPS 197 combination of four S-box values of the block and one key byte |
| AesReference.DecRoundBytes | src/aes-128-utils.h:102 | every byte of AESDEC's result in memory, with the inverse matrix and the key added last |
| AesReference.EncExample | src/aes-128-utils.h:79 | the first round of the cipher example of appendix C.1 of FIPS 197 |
| AesReference.DecExample | src/aes-128-utils.h:102 | the first round of the equivalent inverse cipher example there |
| Aes.EncRoundPermutes | src/aes-128-utils.h:72-83 | under every key one AESENC round is a permutation of the blocks, with its inverse given |
| Aes.DecRoundPermutes | src/aes-128-utils.h:95-106 | the same for AESDEC |
| AesInverse.RecoveredExactly | src/aes-128-utils.h:72-106 | AESDEC gives back the block AESENC was applied to just when adding the key to the block and then doing MixColumns, SubBytes and ShiftRows gives AESENC's result |
| AesInverse.RecoveredAtMostOnce | src/aes-128-utils.h:72-106 | for every key and each of the 16 byte positions, of the 256 blocks that differ there alone AESDEC recovers at most one |
| AesInverse.NoKeyUndoes | src/aes-128-utils.h:72-106 | for no key does AESDEC undo AESENC on all blocks |
| AesInverse.RecoveredRepeated | src/aes-128-utils.h:72-106 | on blocks and keys of one repeated byte it does just when SubByte(b) + k = SubByte(b + k), so always under the zero key |
| AesInverse.DecRoundDoesNotUndoEncRound | src/aes-128-utils.h:95-106 | a concrete block and key for which AESDEC does not undo AESENC |
| AesInverse.CipherRecoveredAtMostOnce | src/aes-128-utils.h:72-106 | with one key and one round, aes_dec_128 after aes_enc_128 recovers at most one of 256 blocks that differ in one byte, whatever the key |
| AesInverse.DefaultCipherNotUndone | src/aes-128-utils.h:72-106 | with three keys of one round each, concrete keys under which decrypting the encrypted zero block gives {06} sixteen times |
| Aes.DecRoundInsideMixUndoesEncRound | src/aes-128-utils.h:95-106 | AESDEC under the zero key between InvMixColumns and MixColumns undoes AESENC, for every key |
| Aes128Generator.CipherPermutes | src/aes-128-utils.h:72-106 | the cipher is a permutation for every key list and every number of rounds, in both directions of use |
| Aes128Generator.OutputsDistinct | src/aes_ctr_128_prng.h:88-130 | without Davies-Meyer outputs i and j of a seeding are equal just when i and j agree modulo 2^64 |
| AesStream.NoRepeatInSeeding | src/randp.c:105-122 | no aligned 16-byte block of the delivered stream comes twice between two reseeds, for any sizes that fit a C int |
| AesStream.NoRepeatInVaesSeeding | src/aes_ctr_256_prng.h:96-138 | in the VAES build's stream no aligned 16-byte block of equal parity comes twice between two reseeds |
| AesStream.StreamWordsAreLanes | src/aes_ctr_128_prng.h:95-98 | the aligned 64-bit words of the AES build's stream are the low lane and then the high lane of the outputs, so the first randp_u64 after a reseed is the low lane of output 0 |
| AesStream.StreamBlock | src/randp.c:114-118 | aligned pieces of the stream are whole generator outputs |
| Aes.RoundSwaps | src/aes-128-utils.h:72-106 | swapping the lanes of block and key swaps the lanes of the round's result |
| Aes.RoundCommutesWithSwap | src/aes-128-utils.h:36-43 | a round commutes with the lane swap at a given block just when the key's lanes are equal |
| Aes128Generator.OutputSwaps | src/aes-128-utils.h:119-140 | swapping counter and keys swaps the output, in all four modes and for any keys and rounds |
| Aes128Generator.EqualLanesDefect | src/aes-128-utils.h:36-43 | the documented defect: with equal lanes in every key, swapped counters give swapped outputs |
| Aes128Generator.SeededKeysBreakSymmetry | src/aes_ctr_128_prng.h:62-65 | after any reseed no key has equal lanes and no round commutes with the swap at any block |
| Aes128.RectifyLaws | src/aes-128-utils.h:44-60 | rectification always ends with unequal lanes, changes a key just when its lanes are equal, and is idempotent |
| Aes128.KeyMasksUnequal | src/aes-128-utils.h:49-50 | the masks have the documented lanes, and those differ |
| Aes256.RectifyHalves | src/aes-256-utils.h:42-60 | rectify_key_256 rectifies each half on its own |
| Aes256.VaesIsTwoAes | src/aes_ctr_256_prng.h:64-192 | one reseed and any number of fills are those of two independent AES generators, half by half, in all four modes, keys and counter included |
| Aes256.HalvesDistinct | src/aes_ctr_256_prng.h:96-138 | without Davies-Meyer each half repeats only after 2^64 steps |
| Aes256.HalvesCoincide | src/aes_ctr_256_prng.h:96-138 | across halves: when the rectified key halves agree, the low half of output i is the high half of output j just when two congruences modulo 2^64 hold between the drawn counter lanes (under Davies-Meyer, whenever they hold) |
| Aes256.HalvesCanCoincide | src/aes_ctr_256_prng.h:64-192 | a concrete draw, for any number of keys and all four modes, whose first output has two equal halves |
| AesStream.VaesStreamInterleaves | src/aes_ctr_256_prng.h:64-112 | the VAES build's stream interleaves, 16 bytes at a time, the streams of two AES pools on the halves of its entropy |
| ForkMachine.ForkSafety | src/allocate.h:47-48 | after any calls and forks, a process has been given as many bytes as its calls asked for less those still to come, and they are the start of the stream of its own draws, one per seeding, made after its creation and shared with no other process |
| ForkMachine.ChildStartsAfresh | src/randp.c:108-112 | however the history goes on, a child's bytes come from draws made after the fork and its parent's earlier bytes from draws made before |
| ForkHistory.RunsAsIfAlone | src/randp.c:170-201 | after any history a process's structure, its bytes and the rest of its call are those of its own calls and iterations alone, on the draws it made: forks and other processes change nothing else, for a parent or for anyone |
| ForkHistory.GivenWhatItAsked | src/randp.c:167-202 | the bytes a process was given, and those its call still waits for, are what its calls one after another deliver |
| ForkHistory.CallFinishes | src/randp.c:186-201 | from every reachable world a call ends within as many iterations as it waits for bytes, having been given them all |
| ForkMachine.ApplyInv | src/randp.c:186-201 | every call, loop iteration and fork keeps the invariant of all processes |
| MutexMachine.MutexSafety | benchmarks/randp.hpp:244-295 | in every interleaving the calls, in the order in which they took the lock, were given the stream from its start, and the pool invariant holds whenever the lock is free |
| MutexMachine.MutexSplitsStream | benchmarks/randp.hpp:277-292 | no stream position goes to two calls, the one holding the lock included, and each call was given its own positions' bytes, a finished call as many as it asked for |
| MutexMachine.AskedIsServed | benchmarks/randp.hpp:244-295 | in every history, the sizes of a thread's calls, in order, are those of its finished calls followed by the one under way |
| MutexMachine.HolderFinishes | benchmarks/randp.hpp:277-294 | from every reachable world, the holder's own iterations, at most one per byte still wanted, and its unlocking add to the log an entry with all the stream bytes its call asked for |
| MutexMachine.LockAdmits | benchmarks/randp.hpp:260 | a free lock admits any waiting thread, at the next position of the stream |
| MutexMachine.WaitingCanFinish | benchmarks/randp.hpp:260-294 | no call is ever stuck: from every reachable world some continuation ends it with as many stream bytes as it asked for |
| MutexMachine.ApplyInv | benchmarks/randp.hpp:260-294 | mutual exclusion and the bookkeeping of the stream survive every step |
| IncludeOrder.FindFile | amalgamate.py:31-51 | the lookup loop finds the first match, or none |
| IncludeOrder.FirstMatchIsFirst | amalgamate.py:46-51 | a match comes from the earliest directory that has the name, and there is none only when no directory has it |
| IncludeOrder.Traversal.VisitPath | amalgamate.py:72-82 | the recursive traversal that updates the shared set and list terminates on every include graph and computes the pure traversal, exception included |
| DependencyOrder.OrderIsDependencyOrder | amalgamate.py:54-85 | the order has no duplicates, holds exactly the files reachable from the root, ends with the root, and puts v before u for every include of v in u unless v can reach u |
| DependencyOrder.OwnDirectoryFirst | amalgamate.py:72-82 | a listed file's include brings into the list the file of that name in its own directory, or when that has none the one in the earliest search directory that has it |
| DependencyOrder.ListedByCandidate | amalgamate.py:72-82 | and every listed file but the root is such a candidate of some include of a listed file |
| DependencyOrder.LookupExample | amalgamate.py:46-82 | a root with two includes, each name present in two directories: the own directory beats the search paths, those count in order, and the includes are listed in order |
| DependencyOrder.TopologicalIffAcyclic | amalgamate.py:55-57 | the order is topological just when no file reachable from the root has an include that leads back to it |
| DependencyOrder.CyclesHaveNoOrder | amalgamate.py:55-57 | with such a cycle, no list of the reachable files whatever is topological |
| DependencyOrder.CycleIsListedAnyway | amalgamate.py:69-85 | two files that include each other: the traversal returns normally, with a list that is not topological |
| DependencyOrder.FailureIsExact | amalgamate.py:72-82 | FileNotFoundError is raised just when some reachable file has an include that resolves nowhere, and names such a file and include |
| Amalgam.Amalgamate | amalgamate.py:128-145 | the whole program: the error and nothing written when a file is missing, otherwise the header and, in include order, each file between its markers |
| Amalgam.WriteOut | amalgamate.py:137-145 | the emission loop writes each listed file's lines, and only those, between that file's own markers |
| Amalgam.EachFileIsFolded | amalgamate.py:138-145 | after the two header lines, each file's copied lines, all of them and nothing else, stand between a begin marker with its own name and an end marker, after all the text of the files before it |
| Amalgam.Emit | amalgamate.py:88-100 | the non-include lines of a file, unchanged and in order |
| Amalgam.AmalgamationPreservesText | amalgamate.py:69-100 | for every include graph, cyclic ones included, the listed text is a permutation of in-place include-once expansion, equal to it just when the walk is tidy, and both fail on the same include |
| Amalgam.OutputPreservesText | amalgamate.py:137-145 | the same of the program's output once markers and added blank lines are set aside |
| Amalgam.IncludesFirstKeepsOrder | amalgamate.py:54-85 | with all includes before any other line in every reachable file, the output text is the in-place expansion, line for line |
| Amalgam.LateIncludeMovesText | amalgamate.py:69-82 | a concrete pair of files where a line above an include ends up below the included text |

## Left out

* System calls and their failure exits (`mmap`, `mlock`, `madvise`, `getentropy`, `err`): entropy is an arbitrary
  sequence of draws, fresh memory and memory wiped by a fork are zeros.
* The lazy allocation of a structure at the first call, and in the mutex build under the lock: a zeroed structure exists
  from the start instead, which no caller can tell apart.
* Thread-exit destructors, TSS keys and `munmap` (src/randp.c:128-142): library lifecycle.
* Forks and signals in the middle of `randp_bytes`, and calls after a thread's destructor has run: taken not to happen.
* Cryptographic or statistical strength: not decided by the code.
* Alignment, page-size and 256-byte asserts, register spills and unrolling. Sizes are unbounded naturals, so the overflow
  of a `size_t` or `int` that the static asserts exclude does not arise; lanes, words and the sampler's product do wrap.
* The constructor of the benchmark class `aes_ctr_prng`, which reseeds: the pools allocate the structure without it.
* `benchmarks/parse_int.hpp`, benchmark drivers, test programs, Makefiles and scripts.
* The include pattern itself and the file system: a file is a list of lines already classified as includes or text,
  and looking a name up in a directory is a given function. The root is taken to be an existing file.
* Text decoding, and the newline that ends a line: a line's content is opaque and is copied as it is.
- AesInverse.DefaultCipherNotUndone: one block and one key list; that no keys at all make decryption undo encryption is proved for one round, not for ciphers of three or more.
- RandomPool.Randp.NearlyDivisionless: asks for a ghost index of an acceptable word ahead in the stream, because on a stream without one the C loop does not end; `Sampler.CountRejectedRuns` counts how few word sequences are of that kind.
- RandomPool.Randp.LtU32: the same ghost index, for bounds above 1.
- RandomPool.Randp.LtU64: the same ghost index, for bounds above 1.
- RandomPool.Randp.Fetch: sees the draws of its own thread as one sequence; how several processes share the kernel's sequence is the subject of ForkMachine.
