# Verified models of the miner's self-contained kernels

This project models, in Dafny, the algorithmic kernels of the CPU miner and proves
that they compute what their callers rely on. It has five groups of modules.

**Arbitrary-precision integers** (`include/num.h`). `Words`, `Powers`, `Shifts` and
`Bits` say what a little-endian vector of 64-bit words means; `NumCore` has the class
`Num` with its in-place carry, borrow, shift and bit loops (`NumAlias`: the sum with one
object as both operands); `WordMul`, `NumMul`,
`NumDiv`, `NumGcd`, `NumSqrt`, `NumText`, `NumPrint` and `NumPow` build multiplication,
division, greatest common divisor, square root, text conversion and modular powers on
it. Every contract is about the integer that the words stand for, and a canonical
vector is determined by its integer.

**The fork-join thread pool** (`data_parallel.h`). `PoolModel` is a state machine with
one step per atomic action of a worker or the main thread; `PoolSafety`,
`PoolProgress`, `PoolBound` and `PoolOverflow` prove statements over all its
interleavings, `PoolInt` carries them over to 32-bit sums; `PoolThreads` has the shared
fields as a class whose methods are the atomic sections, and a whole call under an
arbitrary scheduler, with the meaning of each section from `PoolMeaning`.

**HighwayHash** (`highwayhash.h`, `hh_portable.h`, `hh_sse41.h`, `load3.h`).
`HighwayLanes` defines the hash on four 64-bit lanes; `HighwayPortable` and
`HighwaySse41` have the two implementations and prove them equal to it; `HighwayCat`
has the incremental hasher over the state of either; `HighwayReduction` proves the
algebra of the last step; `HighwayVectors` has the published values.

**Streams and codecs**. `Multipart`, `MultipartSplit`, `MultipartEpilogue` and
`MultipartForm` (the multipart body parser of httplib), the five `Chunked` modules
(chunked transfer coding, section 7.1 of RFC 9112), `XxHash`, `XxHashStream` and
`XxHashVectors` (streaming XXH64 and its published values),
`Base64` and `Base64Codec` (section 4 of RFC 4648, two encoders and a decoder).

**Profiler and Salsa20**. `ProfilerList`, `ProfilerMerge`, `ProfilerResults` and
`ProfilerTrace` (packed self-organising list, call stack, conservation of time and
counts); `Salsa` (the scalar and the SSE2 core) and `SalsaVectors` (the test block of
section 8 of RFC 7914).

Code that updates fields or buffers is modelled by classes and methods with loops, each
proved against a function; the lemmas are about those functions.

## Where the code and its promises part

Each of these is proved, with the exact condition where there is one.

- `mul` (`include/num.h:290-296`) drops the signs past the Karatsuba threshold:
  `NumMul.MulResultIsProduct`, `NumMul.MulDropsSigns`.
- The in-place sum (`include/num.h:237-240`) adds the running carry before the word, so a
  number added to itself comes out wrong after a carry between its words:
  `NumAlias.AddToItself`, `NumAlias.CarryIsDoubled`.
- The string constructor (`include/num.h:116-121`) multiplies by the base before it looks
  at the character, so text that stops at a stray character is scaled once too often:
  `NumPrint.ParseStopsIff`, `NumPrint.ParseScalesTwelve`.
- `mod_pow` (`include/num.h:629-638`) never reduces its initial 1:
  `NumPow.ModPowIsResidue`.
- `div_mod` (`include/num.h:353-369`) does not refuse a zero denominator; it returns the
  numerator as remainder: `NumDiv.DivMod`.
- `print` (`include/num.h:577`) reverses the whole vector, earlier contents included:
  `NumPrint.PrintAppendsIff`, `NumPrint.PrintReversesEarlierText`.
- The `int` sums of the thread pool (`include/highwayhash/data_parallel.h:196-197`) can
  overflow for ranges near the top of `int`: `PoolOverflow.NoOverflowIff`. For all other
  calls the guarantees hold with 32-bit sums: `PoolInt.ExactlyOnceInt`.
- `RunRanges` (`include/highwayhash/data_parallel.h:138`) makes more than 128 ranges
  once its 32-bit rounding wraps: `PoolThreads.StaticRanges`.
- The comment at `include/highwayhash/hh_portable.h:272` calls x^128 + x^2 + x
  irreducible; it is a multiple of x: `HighwayReduction.ModulusFactors`.
- The multipart parser loses an opening boundary that is cut by a call
  (`extern/cpp-http/httplib.h:4737`): `MultipartSplit.PreambleNeedsOnePiece`.
- It reads a line break behind the closing delimiter as another part if a call begins with
  it (`extern/cpp-http/httplib.h:4843-4859`): `MultipartEpilogue.HeadersIff` and
  `MultipartEpilogue.CutsMatterIff`, `MultipartSplit.EpilogueDependsOnCuts`.
- Success of the chunked writer does not mean that the body is complete: an empty write
  (`extern/cpp-http/httplib.h:4462`) or a shutdown (`extern/cpp-http/httplib.h:4539`) ends
  it without its last chunk, and what was sent fails to decode:
  `ChunkedRoundTrip.SentDecodesIff`, `ChunkedRoundTrip.EmptyWriteEndsBody`,
  `ChunkedRoundTrip.ShutdownSendsNothing`.
- The profiler counts offset zero on an empty list in an accumulator that is not part of
  the list (`include/highwayhash/profiler.h:364-371`), so it is lost when it comes first:
  `ProfilerResults.AssimilateKeepsIff`, `ProfilerTrace.RecordedIff`, `ProfilerTrace.LostVisit`.
- It sums what it deducts from a zone in 64 bits (`include/highwayhash/profiler.h:285`),
  which may wrap around: `ProfilerTrace.DeductionIff`; with overheads of 32 bits and
  fewer than 2^31 visits it does not: `ProfilerTrace.SmallOverheadsFit`.
- The lane orders in the comments on the Salsa20 shuffles
  (`include/salsa_simd.hpp:106-119`) are not those of the constants; the code follows the
  constants: `Salsa.ShuffleConstants`.

## Model

| member | source | states |
|---|---|---|
| `Words.CanonicalUnique` | include/num.h:162-165 | Two word vectors without a leading zero word that have the same value are equal, so every contract on values below fixes the words too |
| `Words.AddCarry` | include/num.h:213-215 | The 64-bit sum and its carry make up the exact sum |
| `Words.SubCarry` | include/num.h:217-220 | The 64-bit difference and its borrow make up the exact difference |
| `WordMul.WordMulHiExact` | include/num.h:222-231 | The high word from half-word products is floor(a*b/2^64), and no intermediate sum or product leaves 64 bits |
| `NumCore.Num.Truncate` | include/num.h:162-165 | Removing leading zero words makes the vector canonical and keeps the magnitude |
| `NumCore.Num.CmpAbs` | include/num.h:182-194 | The sign of the difference of the magnitudes |
| `NumCore.Num.Cmp` | include/num.h:196-201 | The sign of the difference of the signed values, minus zero equal to zero |
| `NumCore.SizeOrder` | include/num.h:182-186 | A canonical vector with fewer words is smaller |
| `NumCore.WordOrder` | include/num.h:187-193 | The topmost differing word decides the order |
| `NumCore.AddStep` | include/num.h:237-240 | One position of the addition loop, two carries in one, loses nothing |
| `NumCore.SubStep` | include/num.h:250-253 | One position of the subtraction loop, two borrows in one, loses nothing |
| `NumCore.Num.AddUnsignedOverwrite` | include/num.h:233-244 | In place: the canonical sum of the magnitudes, the carry out included; not for an operand added to itself |
| `NumAlias.AddToItself` | include/num.h:233-244 | A number added to itself in place is doubled if and only if no word below the top one has its highest bit set |
| `NumAlias.CarryIsDoubled` | include/num.h:237-240 | Two words with one carry between them come out one unit of the upper word too large |
| `NumCore.Num.SubUnsignedOverwrite` | include/num.h:246-257 | In place: the canonical difference, no borrow left over, when the first is not smaller |
| `NumCore.Num.ShiftRight` | include/num.h:304-327 | In place by any number of bits: floor division by the power of two, canonical |
| `NumCore.Num.ShiftLeft` | include/num.h:329-351 | In place by any number of bits: multiplication by the power of two, canonical |
| `NumCore.Num.BitLength` | include/num.h:167-172 | One more than the position of the highest one bit, 0 for zero |
| `NumCore.Num.WordBitLength` | include/num.h:203-206 | The same for one word |
| `NumCore.Num.CountTrailingZeros` | include/num.h:174-180 | The position of the lowest one bit, 0 for zero |
| `NumCore.Num.WordCountTrailingZeros` | include/num.h:208-211 | The same for one word, 64 for zero |
| `NumCore.Num.SetBit` | include/num.h:516-522 | Adds 2^i exactly when bit i was clear; the vector grows as needed |
| `NumCore.Num.GetBit` | include/num.h:524-529 | Bit i of the magnitude, 0 beyond the end |
| `Bits.BitOfWord` | include/num.h:524-529 | Bit i of the number is bit i mod 64 of word i / 64 |
| `NumMul.AddSigned` | include/num.h:298-302 | The signed sum, by comparing magnitudes |
| `NumMul.Add` | include/num.h:432-435 | Signed addition |
| `NumMul.Sub` | include/num.h:437-440 | Signed subtraction |
| `NumMul.MulStep` | include/num.h:264-267 | One word product enters the result and the separate carries array: the two together grow by exactly that product at its position, and no carry counter overflows |
| `NumMul.MulLong` | include/num.h:259-271 | Schoolbook multiplication gives exactly the product of the magnitudes, sign by exclusive or |
| `NumMul.Split` | include/num.h:400-408 | Part k holds the words k*n to k*n + n of the operand, as a magnitude |
| `NumMul.KaratsubaIdentity` | include/num.h:279-286 | The three half-size products recombine to the product |
| `NumMul.MulKaratsuba` | include/num.h:273-288 | Karatsuba gives the product of the magnitudes; the recursion terminates |
| `NumMul.MulParts` | include/num.h:279-287 | The middle term is exact and the recombination by shifts gives the product of the split operands |
| `NumMul.Mul` | include/num.h:290-296 | Either algorithm, chosen at 20 words, for all sizes; canonical |
| `NumMul.MulResultIsProduct` | include/num.h:290-296 | The signed product comes out exactly when not both operands exceed 20 words with opposite signs; the magnitude always does |
| `NumMul.MulDropsSigns` | include/num.h:290-296 | A number of 21 words times its negative comes out positive |
| `NumMul.KaratsubaMiddle` | include/num.h:280-284 | The middle term of the three products is the sum of the two mixed products, so never negative |
| `NumDiv.DivMod` | include/num.h:353-369 | numerator = quotient * denominator + remainder on signed values, |remainder| < |denominator|, the remainder has the numerator's sign, all canonical; a zero denominator leaves the numerator as remainder |
| `NumDiv.TopShift` | include/num.h:357-358 | The first shift places the denominator so that the quotient fits in the bits that follow |
| `NumDiv.DivStateStep` | include/num.h:359-365 | One bit of the quotient: the invariant of the shift-and-subtract loop, the bit to be set being clear |
| `NumDiv.Mod` | include/num.h:416-420 | The remainder of the magnitudes with the numerator's sign |
| `NumGcd.GcdUnique` | include/num.h:442-473 | There is only one greatest common divisor, so the contract fixes the result |
| `NumGcd.WordGcd` | include/num.h:72-79 | The Euclidean loop on single words returns the greatest common divisor |
| `NumGcd.GcdCarriesRound` | include/num.h:464-468 | Stripping zeros, ordering and subtracting keeps the greatest common divisor while the first operand is odd |
| `NumGcd.OddGcd` | include/num.h:464-468 | The loop keeps the first operand odd, terminates, and ends in the greatest common divisor |
| `NumGcd.BinaryGcd` | include/num.h:448-472 | Taking out the common power of two and putting it back is exact |
| `NumGcd.Gcd` | include/num.h:442-473 | The greatest common divisor of the magnitudes for all operands, zeros included; the single-word shortcut agrees |
| `NumSqrt.RootBitsClear` | include/num.h:646-650 | The two bits that the loop sets are clear beforehand |
| `NumSqrt.SqrtStateStep` | include/num.h:645-653 | One root bit: what is left is the number minus the square of the root found so far |
| `NumSqrt.Sqrt` | include/num.h:640-655 | r*r <= n < (r+1)*(r+1) |
| `NumText.MulWord` | include/num.h:540-551 | In place: multiplication by a word, no carry lost |
| `NumText.AddWord` | include/num.h:553-560 | In place: addition of a word at a position |
| `NumText.DivModHalfWord` | include/num.h:371-398 | Half-word long division is exact for a denominator up to 2^32, also in place |
| `NumPrint.Print` | include/num.h:562-580 | Appends the digits, the sign and NUL; the whole vector is reversed, earlier text included; `PrintAppendsIff` says when that matters |
| `NumPrint.PrintAppendsIff` | include/num.h:562-580 | Earlier text is kept in front of every number printed if and only if there is none, in every base from 2 to 36 |
| `NumPrint.PrintReversesEarlierText` | include/num.h:577-579 | Printing 1 behind the text a gives 1a |
| `NumPrint.Parse` | include/num.h:109-123 | Sign, the longest run of digits, the end position, and the magnitude that results |
| `NumPrint.PrintParse` | include/num.h:109-123 | Printing into an empty vector and parsing gives back the integer and its sign in every base from 2 to 36, consuming all of the text |
| `NumPrint.DigitsAre` | include/num.h:30-72 | The digits written out, and capital letters read like small ones |
| `NumPrint.PrintedInHex` | include/num.h:562-580 | Minus 48879 in base 16 is -beef |
| `NumPrint.ParseStopsIff` | include/num.h:116-121 | The value is that of the digits read exactly when the text ends there or all those digits are zero |
| `NumPrint.ParseScalesTwelve` | include/num.h:116-121 | "12x" in base 10 reads as 120 |
| `NumPow.ModPow` | include/num.h:629-638 | For any signs and a modulus that is not zero: the magnitude is the power of the magnitudes reduced; the result is not negative for a base that is not, or an even exponent; otherwise it has the sign of a truncated remainder, as long as no product is long enough to drop signs |
| `NumPow.ModPowIsResidue` | include/num.h:630-637 | The result is the residue of the power except for exponent 0 modulo 1 |
| `NumPow.MulMod` | include/num.h:633-635 | The product of the magnitudes reduced, at any size; its sign is that of what `mul` returns |
| `PoolModel.EncodeFacts` | include/highwayhash/data_parallel.h:104-107 | Packing a range into the command word is undone by the worker's decoding and never collides with the two reserved words |
| `PoolSafety.StepKeeps` | include/highwayhash/data_parallel.h:162-230 | Every atomic step of a worker or the main thread keeps the inductive invariant |
| `PoolSafety.RunKeeps` | include/highwayhash/data_parallel.h:99-116 | The invariant holds throughout every interleaving, over any sequence of calls |
| `PoolSafety.ExactlyOnce` | include/highwayhash/data_parallel.h:93-116 | Between calls every worker waits for the next command, and each index of each call so far has been passed to the task exactly once, nothing else ever |
| `PoolSafety.NeverTwice` | include/highwayhash/data_parallel.h:192-206 | Even during a call no index runs twice or out of range |
| `PoolProgress.CanStep` | include/highwayhash/data_parallel.h:162-176 | No reachable state is stuck: no wake-up is lost |
| `PoolProgress.StepDecreases` | include/highwayhash/data_parallel.h:192-230 | During a call every step decreases one number |
| `PoolProgress.CallsReturn` | include/highwayhash/data_parallel.h:99-116 | Every call returns within a stated number of steps, under any schedule |
| `PoolBound.RunBounded` | include/highwayhash/data_parallel.h:192-201 | The invariant behind the bound holds in every interleaving |
| `PoolBound.CounterBound` | include/highwayhash/data_parallel.h:193-196 | The counter stays within N + (T-1)*M + 1 for N tasks, T threads and first chunk M, hence within N + T*max(1, N/(2T)) |
| `PoolOverflow.WorstSchedule` | include/highwayhash/data_parallel.h:193-196 | A schedule that brings the counter to N + (T-1)*M with one more unit reservation pending |
| `PoolOverflow.NoOverflowIff` | include/highwayhash/data_parallel.h:193-197 | The int sums of a call fit under every schedule if and only if end + (T-1)*M + 1 does |
| `PoolOverflow.OverflowExample` | include/highwayhash/data_parallel.h:196-197 | Two threads on the two topmost indices of an int overflow under some schedule |
| `PoolInt.StepSame` | include/highwayhash/data_parallel.h:192-201 | While the range fits, a step with 32-bit sums is the step with unbounded ones |
| `PoolInt.IntRunIsRun` | include/highwayhash/data_parallel.h:187-206 | As long as every call meets the condition of `NoOverflowIff`, every interleaving with 32-bit sums is one with unbounded sums, and keeps its invariants |
| `PoolInt.ExactlyOnceInt` | include/highwayhash/data_parallel.h:93-116 | Exactly once and nothing else, with 32-bit sums, for calls that meet the condition |
| `PoolInt.NeverTwiceInt` | include/highwayhash/data_parallel.h:192-206 | Never twice and never out of range, with 32-bit sums, for calls that meet the condition |
| `PoolInt.CallsReturnInt` | include/highwayhash/data_parallel.h:99-116 | Calls that meet the condition return within the stated number of steps, with 32-bit sums |
| `PoolThreads.ThreadPool.constructor` | include/highwayhash/data_parallel.h:67-79 | The initial state, the command word not yet written |
| `PoolThreads.ThreadPool.ReportReady` | include/highwayhash/data_parallel.h:211-215 | The ready count stays the number of waiting workers, and the main thread is woken by the report that makes all of them wait and by no other |
| `PoolThreads.ThreadPool.ReadCommand` | include/highwayhash/data_parallel.h:218-228 | During a call a woken worker gets exactly the range of that call, and leaves only after the destructor: the word is never read before it is written |
| `PoolThreads.ThreadPool.LoadCounter` | include/highwayhash/data_parallel.h:193-195 | The chunk asked for is never more than was left at the load: the largest number within a fair share of it, or one |
| `PoolThreads.ThreadPool.ReserveChunk` | include/highwayhash/data_parallel.h:196-201 | The worker leaves if and only if the counter was past the end; otherwise it holds exactly the next tasks, clipped to the range, none held by another worker and none executed before |
| `PoolThreads.ThreadPool.CallTask` | include/highwayhash/data_parallel.h:202-204 | The index is in the range, has not been executed in this call, is held by no other worker, and is now counted once |
| `PoolThreads.ThreadPool.BeginRun` | include/highwayhash/data_parallel.h:99-114 | An empty range returns at once with all earlier calls still complete; otherwise nothing of the call has begun and the command word decodes to the range |
| `PoolThreads.ThreadPool.PublishCommand` | include/highwayhash/data_parallel.h:170-174 | The command is stored while every worker waits, so nobody can read half of it |
| `PoolThreads.ThreadPool.NotifyWorkers` | include/highwayhash/data_parallel.h:175 | The loop over the workers wakes all of them |
| `PoolThreads.ThreadPool.CheckBarrier` | include/highwayhash/data_parallel.h:162-167 | The barrier opens if and only if every worker waits, and then every index of the range has been executed exactly once |
| `PoolThreads.ThreadPool.BeginExit` | include/highwayhash/data_parallel.h:84-91 | The destructor begins only when every worker waits and every call is complete |
| `PoolThreads.ThreadPool.Run` | include/highwayhash/data_parallel.h:93-116 | A whole call, the sections interleaved by an arbitrary scheduler: it ends, with every worker waiting and every index of this and all earlier calls executed exactly once |
| `PoolMeaning.ReportMeans` | include/highwayhash/data_parallel.h:211-215 | On states: the last report and no other wakes the main thread |
| `PoolMeaning.WakeMeans` | include/highwayhash/data_parallel.h:218-228 | On states: the range decoded is the one of the call in progress |
| `PoolMeaning.LoadMeans` | include/highwayhash/data_parallel.h:193-195 | On states: a chunk never exceeds what is left at its load, and is the largest number within a fair share of it, or one |
| `PoolMeaning.FetchMeans` | include/highwayhash/data_parallel.h:196-201 | On states: chunks are disjoint and never executed before; the range is left exactly when it is used up |
| `PoolMeaning.TaskMeans` | include/highwayhash/data_parallel.h:202-204 | On states: an executed index is new, in range and held by one worker only |
| `PoolMeaning.CheckMeans` | include/highwayhash/data_parallel.h:162-167 | On states: the barrier opens exactly when all wait, and the call is complete then |
| `PoolThreads.StaticRanges` | include/highwayhash/data_parallel.h:134-143 | The ranges tile [begin, end) without gap or overlap in 32-bit arithmetic; at most 128 of them exactly when the length is at most 2^32 - 128 |
| `HighwayPortable.MaskIsZip` | include/highwayhash/hh_portable.h:187-202 | The shift-and-mask zipper is the byte permutation |
| `HighwayPortable.HHStatePortable.ZipperMergeAndAdd` | include/highwayhash/hh_portable.h:192-202 | Adds the byte permutation of a pair of lanes |
| `HighwayPortable.HHStatePortable.Reset` | include/highwayhash/hh_portable.h:41-52 | The initial lanes for a key |
| `HighwayPortable.HHStatePortable.Update` | include/highwayhash/hh_portable.h:54-62 | One packet, on a little-endian host |
| `HighwayPortable.HHStatePortable.UpdateLanes` | include/highwayhash/hh_portable.h:207-225 | The interleaved loop over the lanes is the lane-wise mixing step |
| `HighwayPortable.RemainderPacket` | include/highwayhash/hh_portable.h:75-97 | The packet built for a remainder depends on the first size bytes only |
| `HighwayPortable.HHStatePortable.UpdateRemainder` | include/highwayhash/hh_portable.h:64-99 | Length padding and the remainder packet; bytes beyond the size never matter |
| `HighwayPortable.HHStatePortable.PermuteAndUpdate` | include/highwayhash/hh_portable.h:246-257 | Permuted lanes as the next packet |
| `HighwayPortable.HHStatePortable.Finalize64` | include/highwayhash/hh_portable.h:101-107 | 64-bit result |
| `HighwayPortable.HHStatePortable.Finalize128` | include/highwayhash/hh_portable.h:109-116 | 128-bit result |
| `HighwayPortable.HHStatePortable.Finalize256` | include/highwayhash/hh_portable.h:118-127 | 256-bit result |
| `HighwaySse41.ShuffleIsZip` | include/highwayhash/hh_sse41.h:208-221 | The byte shuffle with the two control words is the same permutation |
| `HighwaySse41.RotateHalvesIs` | include/highwayhash/hh_sse41.h:193-206 | The two vector shifts rotate every 32-bit half |
| `HighwaySse41.MulRotated` | include/highwayhash/hh_sse41.h:228 | Swapping halves before the 32-bit multiply gives low half times high half, as the portable loop computes it |
| `HighwaySse41.LoadMultipleOfFour` | include/highwayhash/hh_sse41.h:248-270 | The masked load: the whole 32-bit words of the remainder, zeros elsewhere |
| `HighwaySse41.RemainderVectors` | include/highwayhash/hh_sse41.h:82-107 | The two vectors loaded for a remainder are the lanes of the portable remainder packet |
| `HighwaySse41.ReductionIs` | include/highwayhash/hh_sse41.h:272-311 | The per-lane reduction computes the same value as the portable one |
| `HighwaySse41.HHStateSSE41.Reset` | include/highwayhash/hh_sse41.h:45-61 | The same initial lanes |
| `HighwaySse41.HHStateSSE41.UpdateVectors` | include/highwayhash/hh_sse41.h:223-238 | Lane for lane the same mixing step |
| `HighwaySse41.HHStateSSE41.Update` | include/highwayhash/hh_sse41.h:63-69 | One packet |
| `HighwaySse41.HHStateSSE41.UpdateRemainder` | include/highwayhash/hh_sse41.h:71-108 | Lane for lane the same as the portable one |
| `HighwaySse41.HHStateSSE41.PermuteAndUpdate` | include/highwayhash/hh_sse41.h:240-244 | Lane for lane the same as the portable one |
| `HighwaySse41.HHStateSSE41.Finalize64` | include/highwayhash/hh_sse41.h:110-120 | The same 64-bit result |
| `HighwaySse41.HHStateSSE41.Finalize128` | include/highwayhash/hh_sse41.h:122-131 | The same 128-bit result |
| `HighwaySse41.HHStateSSE41.Finalize256` | include/highwayhash/hh_sse41.h:133-146 | The same 256-bit result |
| `HighwayCat.AbsorbBytes` | include/highwayhash/highwayhash.h:99-111 | The one-shot loop on either implementation's state: the state of the definition after the whole string |
| `HighwayCat.HashOnce` | include/highwayhash/highwayhash.h:99-115 | Hashing with the implementation of any target gives the three results of the definition |
| `HighwayCat.HashBoth` | include/highwayhash/highwayhash.h:99-115 | Both implementations give equal 64-, 128- and 256-bit results for every key and byte string |
| `HighwayLanes.AbsorbJoin` | include/highwayhash/highwayhash.h:105-107 | Whole packets may be absorbed in two parts |
| `HighwayCat.HighwayHashCat.Append` | include/highwayhash/highwayhash.h:146-191 | After any fragment the implementation's state and the buffer are those of all bytes so far; the work is done on a copy of the state |
| `HighwayCat.HighwayHashCat.Reset` | include/highwayhash/highwayhash.h:130-133 | The same state object starts a new string; the buffer keeps its stale bytes |
| `HighwayCat.HighwayHashCat.Finalize` | include/highwayhash/highwayhash.h:196-205 | The one-shot hash of everything appended since the last reset, without changing the hasher, although the whole buffer is handed over with its stale bytes |
| `HighwayCat.HashFragments` | include/highwayhash/highwayhash.h:117-120 | Any list of fragments, empty ones included, hashes like the concatenation, on a used hasher of either target |
| `HighwayCat.HashFragmentsBoth` | include/highwayhash/highwayhash.h:117-120 | Hashers of both targets agree with each other and with the one-shot hash |
| `HighwayCat.HHStateT.AppendAndUpdate` | include/highwayhash/hh_sse41.h:172-185 | A packet from the front of the buffer and new bytes; the buffer is only read |
| `HighwayReduction.ReduceIsSum` | include/highwayhash/hh_portable.h:274-291 | The result is the lower half plus the upper half times x plus the upper half times x^2, as polynomials over GF(2) |
| `HighwayReduction.ReductionIsRemainder` | include/highwayhash/hh_portable.h:272-291 | The result is the only polynomial of degree below 128 congruent, modulo x^128 + x^2 + x, to the 256-bit input with its top two bits cleared |
| `HighwayReduction.RemainderUnique` | include/highwayhash/hh_portable.h:272-273 | Two remainders of degree below 128 of the same polynomial are equal |
| `HighwayReduction.ModulusFactors` | include/highwayhash/hh_portable.h:272 | The modulus is x times x^127 + x + 1, so not irreducible as the comment says |
| `HighwayVectors.Hash0` | include/highwayhash/highwayhash_test.cc:132-227 | The published 64-, 128- and 256-bit values of the empty message under the key 0x0706050403020100, ... of the tests |
| `HighwayVectors.Hash3` | include/highwayhash/highwayhash_test.cc:134 | The published 64-bit value of the bytes 0, 1, 2: a remainder of single bytes |
| `HighwayVectors.Hash13` | include/highwayhash/highwayhash_test.cc:137 | The published 64-bit value of 13 bytes: a remainder below 16 of whole words and a byte |
| `HighwayVectors.Hash18` | include/highwayhash/highwayhash_test.cc:139 | The published 64-bit value of 18 bytes: a remainder of 16 bytes or more |
| `HighwayVectors.Hash32` | include/highwayhash/highwayhash_test.cc:143 | The published 64-bit value of one whole packet |
| `HighwayVectors.Hash38` | include/highwayhash/highwayhash_test.cc:145-303 | The published 64-, 128- and 256-bit values of 38 bytes: a whole packet and a remainder |
| `Multipart.MultipartFormDataParser.StartWith` | extern/cpp-http/httplib.h:4893-4900 | Whether the slice starts with the text |
| `Multipart.MultipartFormDataParser.BufFind` | extern/cpp-http/httplib.h:4912-4933 | The first occurrence in the unread bytes, or their number |
| `Multipart.MultipartFormDataParser.BufAppend` | extern/cpp-http/httplib.h:4935-4951 | Compaction, growth and copying append exactly the new bytes to the unread ones |
| `Multipart.MultipartFormDataParser.BufErase` | extern/cpp-http/httplib.h:4953 | Drops bytes from the front |
| `Multipart.MultipartFormDataParser.SetBoundary` | extern/cpp-http/httplib.h:4721-4725 | The two delimiters derived from the boundary |
| `Multipart.MultipartFormDataParser.BodyState` | extern/cpp-http/httplib.h:4820-4842 | State 3, with the content callback accepting or refusing |
| `Multipart.MultipartFormDataParser.BoundaryState` | extern/cpp-http/httplib.h:4843-4859 | State 4 |
| `Multipart.MultipartFormDataParser.PreambleState` | extern/cpp-http/httplib.h:4736-4743 | State 0; what was found is always at the front of what is left |
| `Multipart.MultipartFormDataParser.Parse` | extern/cpp-http/httplib.h:4729-4864 | One call on the buffer is one step of the parser on values, up to the header state; the loop terminates |
| `MultipartSplit.BodyDelivers` | extern/cpp-http/httplib.h:4820-4842 | From the body state, however the input is cut into calls: the parser stays there exactly while no delimiter is complete, having delivered all but the bytes held back; afterwards the content is exactly what precedes the first delimiter, and the bytes behind it are kept in order |
| `MultipartSplit.CutsAgree` | extern/cpp-http/httplib.h:4729-4864 | Two ways of cutting agree on the content, on leaving the body state and on validity, for any receiver that accepts both; `CutsMatterIff` says when they agree on everything |
| `MultipartSplit.EpilogueDependsOnCuts` | extern/cpp-http/httplib.h:4843-4859 | The concrete case: a line break behind the closing delimiter is the start of another part if it comes in a call of its own, and not otherwise |
| `MultipartEpilogue.EpilogueKeeps` | extern/cpp-http/httplib.h:4843-4859 | However the epilogue is cut, what is pending is the end of it, and the header state is reached only over a line break in it |
| `MultipartEpilogue.HeadersIff` | extern/cpp-http/httplib.h:4843-4859 | Some way of cutting ends in the header state if and only if a line break follows the delimiter, or the epilogue behind the closing delimiter contains one anywhere |
| `MultipartEpilogue.CutsMatterIff` | extern/cpp-http/httplib.h:4843-4859 | All ways of cutting the input end in the same state if and only if no byte follows the closing delimiter |
| `MultipartSplit.RefusalStops` | extern/cpp-http/httplib.h:4824-4827 | After a refusal the form is invalid, and only bytes from before the first delimiter were delivered |
| `MultipartSplit.PreambleNeedsOnePiece` | extern/cpp-http/httplib.h:4736-4743 | State 0 finds the opening boundary if and only if one single call holds all of it |
| `MultipartSplit.CutPreambleIsLost` | extern/cpp-http/httplib.h:4736-4743 | A boundary cut in two is present in the input and not found |
| `MultipartForm.DelimitersWrittenOut` | extern/cpp-http/httplib.h:4721-4725 | The delimiter is CRLF, two dashes and the boundary, the opening two dashes, the boundary and CRLF |
| `MultipartForm.LastPart` | extern/cpp-http/httplib.h:4820-4859 | From the body state, content, CRLF, two dashes, the boundary and two dashes, cut anywhere: exactly the content is delivered and the form is valid, for every content in front of which the delimiter does not begin |
| `MultipartForm.PartBeforeAnother` | extern/cpp-http/httplib.h:4820-4859 | With CRLF and more behind the delimiter instead: the content is delivered and all of the rest is kept for the header state |
| `MultipartForm.Hello` | extern/cpp-http/httplib.h:4820-4859 | The concrete case: hello in front of the closing delimiter of the boundary B |
| `MultipartForm.OpeningFound` | extern/cpp-http/httplib.h:4736-4743 | State 0 on text with two dashes, the boundary and CRLF in it: what precedes is dropped, what follows is kept for the header state |
| `ChunkedText.FromIToHex` | extern/cpp-http/httplib.h:2472-2480 | The digits of the number in hexadecimal |
| `ChunkedText.HexRoundTrip` | extern/cpp-http/httplib.h:2472-2480 | Those digits have the value of the number, without leading zeros |
| `ChunkedText.SizeLineRoundTrip` | extern/cpp-http/httplib.h:4196 | strtoul reads a size line back as the size |
| `ChunkedReader.LineReader.Append` | extern/cpp-http/httplib.h:2836-2847 | One more byte, in the fixed buffer or beyond it |
| `ChunkedReader.LineReader.GetLine` | extern/cpp-http/httplib.h:2801-2834 | The bytes up to the first CRLF or the end of the stream, at any length, and nothing more is consumed |
| `ChunkedReader.ReadContentWithLength` | extern/cpp-http/httplib.h:4134-4154 | Exactly the next len bytes, whatever single reads return; it fails only if there are fewer or the receiver refuses |
| `ChunkedReader.ReadContentChunked` | extern/cpp-http/httplib.h:4182-4235 | Content, trailer lines and what is left in the stream are those of decoding the byte string; it fails exactly when decoding does or the receiver refuses |
| `ChunkedReader.ReadTrailers` | extern/cpp-http/httplib.h:4216-4232 | The trailer section up to the blank line |
| `ChunkedWriter.OutputStream.WriteData` | extern/cpp-http/httplib.h:4360-4368 | All of the data, in as many portions as the transport takes, or a failure for lack of room |
| `ChunkedWriter.DataSink.Write` | extern/cpp-http/httplib.h:4460-4485 | One chunk per write that is not empty; an empty one only ends the expectation of more; it fails only if the stream does |
| `ChunkedWriter.DataSink.Finish` | extern/cpp-http/httplib.h:4489-4533 | The last chunk and an empty trailer section |
| `ChunkedWriter.WriteContentChunked` | extern/cpp-http/httplib.h:4453-4554 | On success the bytes sent are the encodings of the operations served; with room, it succeeds exactly when the provider serves to the end; it reports cancellation only if the provider fails, a write error only if the stream does |
| `ChunkedRoundTrip.OneChunk` | extern/cpp-http/httplib.h:4196-4211 | A chunk in front of anything is read as its payload, CRLF inside it included |
| `ChunkedRoundTrip.RoundTrip` | extern/cpp-http/httplib.h:4182-4235 | Reading back any operations: with a done() among them, the content written before it, and exactly the encoding is consumed; without one, reading fails |
| `ChunkedRoundTrip.SentDecodesIff` | extern/cpp-http/httplib.h:4453-4554 | After success, what was sent decodes if and only if a done() was among the operations served |
| `ChunkedRoundTrip.EmptyWriteEndsBody` | extern/cpp-http/httplib.h:4460-4463 | Writing a and then nothing is a success that does not decode |
| `ChunkedRoundTrip.ShutdownSendsNothing` | extern/cpp-http/httplib.h:4539-4554 | A shutdown before the first call is a success with nothing sent, which does not decode |
| `ChunkedRoundTrip.TransferCalls` | extern/cpp-http/httplib.h:4453-4554 | Writer and reader together, for any provider: receiving succeeds exactly when a done() was served, and gives what was written before it |
| `ChunkedRoundTrip.Transfer` | extern/cpp-http/httplib.h:4182-4235 | Writer and reader together, over any portions of a transport and with more data behind: the concatenation of the writes, nothing of what is behind; sending succeeds whenever there is room |
| `ChunkedTrailers.BodyWithTrailers` | extern/cpp-http/httplib.h:4182-4235 | Any chunks and any trailer section up to a blank line: the payloads are the content, every line is collected and what follows is left; it fails exactly when a line with its line break is longer than 8192 |
| `ChunkedTrailers.ChunkEnds` | extern/cpp-http/httplib.h:4203-4211 | A chunk is accepted if and only if CRLF follows its payload |
| `ChunkedTrailers.SizeText` | extern/cpp-http/httplib.h:4196-4199 | A size as strtoul reads it, with spaces, sign, prefix, digits of either case and anything behind them; too large ones are the largest value |
| `ChunkedTrailers.DigitsRead` | extern/cpp-http/httplib.h:4196 | Digits of either case have their value |
| `ChunkedTrailers.LineAtTheEnd` | extern/cpp-http/httplib.h:2801-2834 | A last line without CRLF is a line if the stream ends there and none if it breaks |
| `ChunkedTrailers.SentText` | extern/cpp-http/httplib.h:4460-4533 | A chunk of three bytes, an empty write and the end of a body, as they are sent |
| `ChunkedTrailers.SizeWritten` | extern/cpp-http/httplib.h:2472-2480 | Sizes are written in small letters |
| `ChunkedTrailers.ReadAbc` | extern/cpp-http/httplib.h:4182-4235 | A body with a trailer line and another message behind it, written out |
| `ChunkedTrailers.RefuseAbcd` | extern/cpp-http/httplib.h:4207-4209 | The same with a byte too many in its chunk fails |
| `ProfilerList.PackParts` | include/highwayhash/profiler.h:172-183 | Offset and timestamp, or offset and count, share a word without touching each other |
| `ProfilerList.BumpParts` | include/highwayhash/profiler.h:376-378 | Adding calls to a packed word never reaches the offset as long as the count fits |
| `ProfilerList.UpdateAdds` | include/highwayhash/profiler.h:352-429 | An update adds exactly its calls and its duration under its offset, for any choice of offsets, whatever is swapped |
| `ProfilerList.UpdateKeepsDistinct` | include/highwayhash/profiler.h:352-429 | One entry per offset is kept, and only the offset updated can be new |
| `ProfilerList.AbsorbAdds` | include/highwayhash/profiler.h:302-313 | Absorbing a list adds calls and times pointwise and unites the offsets |
| `ProfilerResults.Results.UpdateOrAdd` | include/highwayhash/profiler.h:352-396 | In place: increase and swap with the predecessor, or append; on an empty list offset zero is lost |
| `ProfilerResults.Results.AnalyzePackets` | include/highwayhash/profiler.h:265-298 | The stack and the list after any batch of packets, as a fold over them |
| `ProfilerResults.RunJoin` | include/highwayhash/profiler.h:263-265 | A trace may be analysed in batches cut anywhere |
| `ProfilerResults.Results.Assimilate` | include/highwayhash/profiler.h:302-313 | In place: the other list, entry by entry and in order, with any offsets |
| `ProfilerResults.RecordAllIs` | include/highwayhash/profiler.h:302-313 | The list afterwards: everything absorbed, except for a first entry of offset zero in an empty list |
| `ProfilerResults.AssimilateKeepsIff` | include/highwayhash/profiler.h:302-313 | Nothing is lost if and only if offset zero does not come first to an empty list |
| `ProfilerResults.Results.MergeDuplicates` | include/highwayhash/profiler.h:434-460 | One entry per name, with the calls and times of every name unchanged |
| `ProfilerMerge.MergeKeeps` | include/highwayhash/profiler.h:443-448 | Merging an entry and filling the hole with the last one keeps all sums by name |
| `ProfilerTrace.RunTrace` | include/highwayhash/profiler.h:265-294 | For any overheads, a well-nested trace never violates an assertion of the program within the table limits; the list gains exactly its visits and self times, each max(0, time - overheads - what the zones directly inside cost), and the enclosing zone is charged the time and the overhead of each outermost zone, unless an empty list loses the first zone |
| `ProfilerTrace.RecordedIff` | include/highwayhash/profiler.h:265-294 | A trace that the assertions accept is recorded in full if and only if the list was not empty or the zone left first does not have offset zero |
| `ProfilerTrace.LostVisit` | include/highwayhash/profiler.h:364-371 | One visit to a zone of offset zero leaves an empty list empty |
| `ProfilerTrace.SelfTimesSum` | include/highwayhash/profiler.h:281-292 | The self times and the cost of the visits, n * (self + child) + (n - k) * child for n visits of which k are outermost, add up to the time of the outermost zones if and only if no zone is shorter than its deduction; otherwise they exceed it |
| `ProfilerTrace.Conservation` | include/highwayhash/profiler.h:265-294 | From an empty profile and for any overheads: the recorded times are the self times, with the cost of the visits they are the time of the outermost zones unless a zone is too short, counts are exact, one entry per zone, empty stack |
| `ProfilerTrace.DeductionIff` | include/highwayhash/profiler.h:284-285 | A deduction in 64 bits leaves what is right if and only if it does not wrap around or still covers the time |
| `ProfilerTrace.SmallOverheadsFit` | include/highwayhash/profiler.h:677-751 | With overheads of 32 bits and fewer than 2^31 visits it never wraps around |
| `ProfilerTrace.FreeIsLong` | include/highwayhash/profiler.h:281-292 | Without overheads no zone is shorter than its deduction |
| `ProfilerTrace.OneVisit` | include/highwayhash/profiler.h:281-285 | Overheads 30 and 20, packets written out: a zone from 0 to 100 records 50 |
| `ProfilerTrace.ShortVisit` | include/highwayhash/profiler.h:281-292 | The same overheads: a zone of 40 records nothing, and 90 remain of the 200 around it |
| `XxHash.StripesJoin` | include/xxhash64.h:80-85 | Whole stripes may be processed in two parts |
| `XxHash.MoreStripes` | include/xxhash64.h:53-92 | The accumulators and the leftover of a longer message from those of its beginning |
| `XxHashStream.XXHash64.constructor` | include/xxhash64.h:29-37 | The accumulators for a seed |
| `XxHashStream.XXHash64.Add` | include/xxhash64.h:43-96 | After any piece the accumulators are the fold over all complete stripes and the buffer holds the rest, less than a stripe; false exactly for a null pointer or no bytes |
| `XxHashStream.XXHash64.Hash` | include/xxhash64.h:100-150 | The hash of everything added; below one stripe from the seed still in the third accumulator |
| `XxHashStream.HashOnce` | include/xxhash64.h:158-163 | The one-call form |
| `XxHashStream.HashPieces` | include/xxhash64.h:14-17 | Any split of a message, empty pieces included, gives the one-shot hash |
| `XxHashVectors.Empty` | include/xxhash64.h:100-150 | The published value of the empty message |
| `XxHashVectors.ThreeBytes` | include/xxhash64.h:139-150 | The published value of abc: single bytes |
| `XxHashVectors.FourBytes` | include/xxhash64.h:132-150 | The published value of abcd: a half word |
| `XxHashVectors.EightBytes` | include/xxhash64.h:128-150 | The published value of abcdefgh: a word |
| `XxHashVectors.Fourteen` | include/xxhash64.h:100-150 | The published value of 14 bytes under a seed that is not zero: a word, a half word and single bytes |
| `XxHashVectors.Text` | include/xxhash64.h:100-150 | The published value of the 39 bytes of Nobody inspects the spammish repetition: a stripe and a rest |
| `Salsa.SplitRotation` | include/salsa_simd.hpp:91-95 | Two shifts mixed in one after the other are a rotation |
| `Salsa.ShuffleConstants` | include/salsa_simd.hpp:106-119 | Which lane each shuffle constant moves where |
| `Salsa.ColumnRoundLanes` | include/salsa_simd.hpp:100-103 | With columns on the lanes, four register steps are the column round |
| `Salsa.ToRows` | include/salsa_simd.hpp:106-108 | The rearrangement puts rows on the lanes |
| `Salsa.RowRoundLanes` | include/salsa_simd.hpp:111-114 | With rows on the lanes, four register steps are the row round |
| `Salsa.ToColumns` | include/salsa_simd.hpp:117-119 | The rearrangement back |
| `Salsa.AddOnDiagonals` | include/salsa_simd.hpp:124-159 | Adding and storing on the diagonals is adding and storing the block |
| `Salsa.Salsa20Generic` | include/salsa_simd.hpp:28-58 | In place: the block plus its double rounds |
| `Salsa.Salsa20Sse2` | include/salsa_simd.hpp:64-160 | In place: the same function of the block, for every number of rounds, odd ones included |
| `SalsaVectors.QuarterOfOne` | include/salsa_simd.hpp:35-38 | The quarter round of 1, 0, 0, 0 |
| `SalsaVectors.EightRounds` | include/salsa_simd.hpp:28-58 | The test block of section 8 of RFC 7914 under eight rounds |
| `Base64.GroupOfFour` | include/base64.hpp:599-606 | The bitwise or of the four table values is past the marker exactly when one of the characters is no letter; otherwise its bytes are the 24 bits of the four values in order |
| `Base64.TablesJoin` | include/base64.hpp:599-606 | No two of the four table values share a bit: their bitwise or is their sum |
| `Base64.JoinedLetters` | include/base64.hpp:518-521 | The bits of two neighbouring bytes joined by a bitwise or index the letter that stands for them |
| `Base64.RoundTrip` | include/base64.hpp:494-677 | Decoding undoes encoding for every byte string |
| `Base64.RoundTripBack` | include/base64.hpp:494-677 | For text that decodes, encoding gives it back if and only if the unused tail bits are zero |
| `Base64Codec.EncodeInto` | include/base64.hpp:494-553 | The prefilled buffer ends up as the encoding, for all three tail lengths |
| `Base64Codec.DecodeInto` | include/base64.hpp:565-677 | Succeeds exactly on letters in groups of four with at most two trailing padding characters, and fills the buffer with their bytes |
| `Base64Codec.EncodeBits` | extern/cpp-http/httplib.h:2516-2542 | The bit-accumulating encoder gives the same text on every input |
| `Base64Codec.BitsOf` | extern/cpp-http/httplib.h:2527-2530 | What the wrapping 32-bit accumulator has lost is never read |
| `Base64.LettersAre` | include/base64.hpp:452-489 | The alphabet written out |
| `Base64.EncodeFoobar` | include/base64.hpp:494-553 | The texts of section 10 of RFC 4648 |
| `Base64.EncodePlusSlash` | include/base64.hpp:494-553 | Plus and slash |

## Left out

- NumMul.Mul: signed products past the threshold are stated as the code computes them, on magnitudes; operands are limited to the sizes at which a carry counter of `mul_long` cannot overflow.
- NumDiv.DivMod: the difference of bit lengths is required to fit in `int`, as the cast in the code needs; the quotient object is not one of the operands.
- NumSqrt.Sqrt: the bit length is required to fit in `int`; negative numbers are outside the promise.
- NumPow.ModPow: the bit lengths of base and modulus fit in `int`; the sign for a negative base, an odd exponent and a modulus of more than 20 words, where it depends on which products drop it; the modulus zero.
- NumCore.Num.AddUnsignedOverwrite: requires two different objects; one object in both places is `NumAlias.AddToItself`.
- NumPrint.Print: only the default alphabet.
- Base64.GroupOfFour: the literal lookup tables are given as formulas in the value of a letter.
- Base64Codec.EncodeBits: the accumulator wraps at 32 bits; before C++20 a left shift out of a signed number is undefined.
- XxHashStream.XXHash64.Add: messages of 2^64 bytes and more, and an input that lies in the hasher's own buffer.
- ChunkedReader.ReadTrailers: what the header parser makes of a trailer line; the lines are collected.
- MultipartSplit.BodyDelivers: starts at the body state and ends at the header state, which uses std::regex; the bytes behind a delimiter are kept for it unchanged.
- ProfilerTrace.RunTrace: deductions that wrap around at 64 bits within a zone that they no longer cover, which overheads of 32 bits and fewer than 2^31 visits do not reach; how the program measures its overheads. `ZoneDuration`, which clears the list after its measurement.
- `Num`: random numbers, conversion to double and to `int`, `clr_bit`, `pow` with a machine-word exponent: easy members or library calls.
- Thread pool: memory ordering (steps are sequentially consistent), spurious wake-ups, `RunTasks`, `PerThread`; what a C++ compiler does with a signed sum that overflows.
- HighwayHash: AVX2, NEON and VSX variants, big-endian hosts.
- httplib: sockets, TLS, timeouts, compression, header parsing, progress callbacks, the server and the client; streams are byte strings with an arbitrary portion per read.
- Profiler: the time that the analysis itself takes, printing and sorting.
- `salsa20_blocks` and the NEON version of Salsa20, which have no body here.
- `include/bigint.h`: the same arithmetic over decimal strings.
- CPU detection, affinity, huge pages, timers and command-line options: platform code without a property of this kind.
- The hash functions of the coins themselves, the suffix-array code and RandomX: only their declarations are at hand.
