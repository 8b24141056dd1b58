# Qcap: proofs about its capture, flow, logging and formatting code

Qcap captures packets with one thread, sorts them into flows with several, and writes records and
messages through the logging and formatting library it bundles. This project models the parts of that
code where something can go wrong, and proves what they do.

* **Big numbers and decimal digits** (`Bigint`, `BigArithmetic`, `Convolution`, `Digits`, `DragonSetup`, `Dragon`,
  `DragonShortest`, `LowerEnd`, `LowerEndInputs`, `FormatDragon`, `Grisu`, `GrisuGen`, `Divisibility`,
  `TrailingZeros`, `Decimal`, `Powers`).
  The big-number class keeps base-2^32 digits and an exponent of implicit zero digits. Each method is proved
  against the number it stands for. On top of it, both forms of the exact digit generator and the 64-bit
  one with its error bound are proved to round correctly, the shortest form but for the inputs named below.
* **Logging queue and worker pool** (`CircularQueue`, `BlockingQueue`, `QueueCalls`, `ThreadPool`, `LatePosts`). The
  ring is a class. The blocking queue and the pool are state machines: a step is what a thread does under the mutex, one
  notification, or one accidental wake-up, for any number of producers, consumers and workers. The theorems hold for
  all runs.
* **Flow engine and capture pipeline** (`Flow`, `FlowCache`, `FlowTally`, `FlowState`, `FlowEnds`, `FlowTotals`,
  `Decode`, `Collisions`, `Pipeline`, `Shutdown`, `CaptureToRecords`, `Counters`). The decoder's classes carry a ghost
  history: which packet was counted by which flow, and in which place each flow ended up. All totals follow from it,
  and so does when a flow is over.
* **Rotating files, format strings, ISO weeks** (`FileNames`, `RotatingFile`, `FormatScan`, `FormatPieces`, `IsoWeek`).

## What the proofs found

Each of these is part of the model, with the exact condition or a concrete input.

* `compare` calls two equal numbers unequal when their exponents differ; `VerdictExactness` says exactly when it is
  right. The fixed form never depends on such a pair. The shortest form does when `e / 32 > exp10 / 32`: then it does
  not see that a decimal lies on the lower boundary of an even significand, and `LowerEndExample` is a double that
  gets more digits than the six it needs. `Format` has the exact condition: 5^(exp10-j) divides 2f-1 and
  2^e * 10^j < 10^exp10 for some j < exp10. The result is inside the interval all the same.
* `subtract_aligned` loses a borrow when the digit above is zero and another follows. Division never meets
  this case, since its numbers differ by one digit at most.
* The shortest form can round a leading 9 up to the character after '9'. `FirstDigitOverflows` says exactly when. It
  takes an exponent estimate that is right for the number but not for its upper boundary.
* The exclusive-or hash lets unrelated conversations share a flow entry. The code asserts that it does not happen;
  `NeverFailsIff` says over which sets of keys that assertion can fail, and `Meet` has the two packets. The theorems
  that need the direction of a packet require such a set.
* The final dump of a decoder clears the table but not the expiry cache.
* Packets can be lost at the end without a trace. The stop only stores two flags, and a decoder exits as soon as its
  ring is empty, while the capturing thread may still be in its last round. What arrives after that stays in the ring,
  neither dropped nor counted; `AllCountedIff` says exactly when, `LateIsStranded` that it is one burst for each queue
  at most, and `StrandedExample` has a run.
* With a precision met by leading zeros, the 64-bit generator gives up on numbers up to about a hundred units from half
  a place, as `LeadingZeros` says exactly: it compares a tenth of the number, but with ten times the error. The exact
  generator then takes over.
* A message posted with the overrun policy while the pool is being destroyed can push out a terminate message, and
  then a worker never exits. `LatePostsHarmless` says that such a post onto a full queue with a terminate message at its
  front is the only way. `async_logger` holds on to the pool while it posts, so this concerns direct callers of it.
  A direct caller that posts with the blocking policy after the join hangs if and only if the queue is full
  (`LatePostReturnsIff`).
* The ISO week functions are right except for the week 53 of a negative year, which truncating division makes them
  miss.

Verify with `dafny verify dfyconfig.toml`, Dafny 4.11. Source paths below are relative to the
repository, lines are those of the commit the model follows.

## Model

| member | source | states |
|---|---|---|
| `Bignum.Accumulator.Add` | thirdpart/spdlog/fmt/bundled/format-inl.h:360-363 | the two words together grow by exactly n, as one 128-bit number |
| `Bignum.Accumulator.ShiftRight32` | thirdpart/spdlog/fmt/bundled/format-inl.h:364-369 | the 128-bit sum is divided by 2^32 |
| `Bignum.Accumulator.Low32` | thirdpart/spdlog/fmt/bundled/format-inl.h:356-358 | the sum modulo 2^32 |
| `Convolution.ColumnsAreProduct` | thirdpart/spdlog/fmt/bundled/format-inl.h:565-582 | the column sums of all cross products, weighted by their place, are the product of two digit rows: every cross product once |
| `Bignum.Bigint.Square` | thirdpart/spdlog/fmt/bundled/format-inl.h:558-585 | the value becomes exactly its square, the exponent doubles, the result is trimmed: the last carry is zero |
| `Bignum.Bigint.LowColumn` | thirdpart/spdlog/fmt/bundled/format-inl.h:568-571 | the inner loop of the low half adds the whole column of cross products |
| `Bignum.Bigint.HighColumn` | thirdpart/spdlog/fmt/bundled/format-inl.h:578-579 | the inner loop of the high half adds the whole column, with both indices in range |
| `Bignum.Bigint.AssignWord` | thirdpart/spdlog/fmt/bundled/format-inl.h:463-471 | a 64-bit word becomes a trimmed big number of the same value |
| `Bignum.Bigint.Assign` | thirdpart/spdlog/fmt/bundled/format-inl.h:455-461 | digits and exponent of the other number |
| `Bignum.Bigint.RemoveLeadingZeros` | thirdpart/spdlog/fmt/bundled/format-inl.h:399-403 | same value, trimmed |
| `Bignum.Bigint.Multiply32` | thirdpart/spdlog/fmt/bundled/format-inl.h:417-426 | multiplication by a 32-bit word, the carry never overflowing |
| `Bignum.Bigint.Multiply64` | thirdpart/spdlog/fmt/bundled/format-inl.h:428-443 | multiplication by a 64-bit word; the 64-bit carry expression does not overflow |
| `Bignum.Bigint.ShiftLeft` | thirdpart/spdlog/fmt/bundled/format-inl.h:477-490 | multiplication by a power of two, split into whole digits and bits |
| `Bignum.Bigint.AssignPow10` | thirdpart/spdlog/fmt/bundled/format-inl.h:539-556 | the value is exactly 10^e for every e below 2^30 |
| `Bignum.Bigint.TopBit` | thirdpart/spdlog/fmt/bundled/format-inl.h:542-545 | the bit scan ends at the highest bit of e |
| `Bignum.Bigint.PowerStep` | thirdpart/spdlog/fmt/bundled/format-inl.h:550-554 | one bit of the exponent: the power of 5 for the bits read so far |
| `Bignum.Bigint.Compare` | thirdpart/spdlog/fmt/bundled/format-inl.h:498-512 | the answer for all trimmed operands, ties of unequal exponents included |
| `BigArithmetic.VerdictExactness` | thirdpart/spdlog/fmt/bundled/format-inl.h:498-512 | that answer is the sign of the difference if and only if the exponents are equal or the values differ (and, for zeros, a condition on lengths) |
| `BigArithmetic.VerdictNotLess` | thirdpart/spdlog/fmt/bundled/format-inl.h:498-512 | "not less" is exact when the left exponent is not larger |
| `BigArithmetic.CompareTieCounterexample` | thirdpart/spdlog/fmt/bundled/format-inl.h:510-511 | equal numbers that compare as unequal |
| `Bignum.Bigint.AddCompare` | thirdpart/spdlog/fmt/bundled/format-inl.h:515-536 | the sign of a + b - c, for any mix of exponents, although it stops at the first deciding digit |
| `BigArithmetic.ShortfallDecides` | thirdpart/spdlog/fmt/bundled/format-inl.h:526-535 | a shortfall of more than one unit at a digit cannot be made up by the digits below; one of none cannot be lost |
| `Bignum.Bigint.SubtractBigits` | thirdpart/spdlog/fmt/bundled/format-inl.h:393-397 | one digit of a subtraction with borrow |
| `Bignum.Bigint.SubtractAligned` | thirdpart/spdlog/fmt/bundled/format-inl.h:406-415 | the exact difference, and exactly how much too much when the final borrow loop meets a zero digit |
| `Bignum.Bigint.NoBorrowLost` | thirdpart/spdlog/fmt/bundled/format-inl.h:413-413 | the borrow is never lost when the left number is at most one digit longer |
| `Bignum.BorrowLostExample` | thirdpart/spdlog/fmt/bundled/format-inl.h:413-413 | a pair of numbers whose difference comes out too large |
| `Bignum.Bigint.Align` | thirdpart/spdlog/fmt/bundled/format-inl.h:589-598 | the overlapping copy keeps the value; the exponent is the smaller of the two |
| `Bignum.Bigint.DivmodAssign` | thirdpart/spdlog/fmt/bundled/format-inl.h:602-613 | quotient and remainder of the integer division, 0 <= remainder < divisor |
| `DragonSetup.ExactRatio` | thirdpart/spdlog/fmt/bundled/format-inl.h:2239-2272 | numerator over denominator times 10^exp10 is f * 2^e |
| `DragonSetup.SetUp` | thirdpart/spdlog/fmt/bundled/format-inl.h:2237-2271 | the four big numbers hold the ratio and the distances to the boundaries, and no comparison before aligning can meet a tie |
| `DragonSetup.UnitAndDenomExp` | thirdpart/spdlog/fmt/bundled/format-inl.h:2239-2272 | the distance to the boundaries has no more implicit zero digits than the denominator exactly when e < 0 or e / 32 <= exp10 / 32 |
| `Dragon.NextDigit` | thirdpart/spdlog/fmt/bundled/format-inl.h:2313-2313 | a division step gives one digit 0 to 9 and a remainder below the denominator; the exponent falls to that of the denominator at the first digit that is not zero |
| `Dragon.FixedDigits` | thirdpart/spdlog/fmt/bundled/format-inl.h:2303-2336 | digits and exponent are the ratio rounded half to even at the digit asked for, with exactly as many digits; the exponent goes up exactly when rounding takes one digit more |
| `Dragon.CarryNines` | thirdpart/spdlog/fmt/bundled/format-inl.h:2320-2332 | a last digit of ten is carried through the nines without changing the number, and out at the front exactly when all digits carry |
| `Dragon.NoDigit` | thirdpart/spdlog/fmt/bundled/format-inl.h:2305-2310 | with no digit requested, one digit says whether the number rounds up |
| `Decimal.RoundHalfEvenIsNearest` | thirdpart/spdlog/fmt/bundled/format-inl.h:2318-2319 | rounding half to even: no other integer is nearer to the ratio, and of two nearest ones it is the even one |
| `DragonShortest.ShortestDigits` | thirdpart/spdlog/fmt/bundled/format-inl.h:2273-2302 | the decimal lies in the rounding interval, no shorter decimal does, and no decimal of its length there is nearer, ties to the even one; the lower end counts for an even significand whenever the comparison can see it; every digit is 0 to 9 except exactly when the first digit overflows; the loop terminates |
| `DragonShortest.LowTest` | thirdpart/spdlog/fmt/bundled/format-inl.h:2281-2281 | the comparison with the lower boundary calls an equal pair equal if and only if the exponents are equal, and is right about every other pair |
| `LowerEnd.ShorterLostIff` | thirdpart/spdlog/fmt/bundled/format-inl.h:2281-2286 | without the lower end a shorter decimal is lost if and only if one lies on it and the interval is narrower than one unit of its last digit |
| `LowerEnd.NearestLostIff` | thirdpart/spdlog/fmt/bundled/format-inl.h:2281-2299 | and the nearest decimal of the same length is lost if and only if it lies there and is the one to round down to |
| `LowerEnd.ShortestLostIff` | thirdpart/spdlog/fmt/bundled/format-inl.h:2273-2302 | the result found without the lower end is the shortest and nearest with it if and only if neither happens |
| `LowerEnd.AtShortestLength` | thirdpart/spdlog/fmt/bundled/format-inl.h:2273-2302 | the second loss depends on the inputs only: it is the one at the length of the shortest decimals |
| `LowerEndInputs.OverflowIgnoresLowerEnd` | thirdpart/spdlog/fmt/bundled/format-inl.h:2287-2299 | for an even significand the overflow of the first digit does not depend on the lower end |
| `LowerEndInputs.NeverRoundsAway` | thirdpart/spdlog/fmt/bundled/format-inl.h:2287-2299 | with equal distances the nearest decimal is never lost |
| `LowerEndInputs.LosesShorterMeaning` | thirdpart/spdlog/fmt/bundled/format-inl.h:2281-2286 | with equal distances, the loss in whole numbers: 5^(exp10-j) divides 2f-1 and 2^e * 10^j < 10^exp10 for some j < exp10 |
| `LowerEndInputs.FiveOnLowerEnd` | thirdpart/spdlog/fmt/bundled/format-inl.h:2281-2286 | with a closer predecessor, a decimal on the lower end makes 4f-1 a multiple of 5 |
| `LowerEndInputs.LowerEndExample` | thirdpart/spdlog/fmt/bundled/format-inl.h:2281-2286 | a double with a decimal of 6 digits on its lower end, for which more digits are written |
| `DragonShortest.NoOverflow` | thirdpart/spdlog/fmt/bundled/format-inl.h:2287-2287 | no overflowing digit when the upper boundary is below ten units |
| `DragonShortest.OverflowExample` | thirdpart/spdlog/fmt/bundled/format-inl.h:2287-2287 | a float whose first digit is rounded up to the character after 9 |
| `FormatDragon.Format` | thirdpart/spdlog/fmt/bundled/format-inl.h:2225-2337 | both forms, from significand, exponent and estimate to digits and exponent; the shortest form is the shortest and nearest with both ends of the interval if and only if the inputs do not lose a decimal on the lower end |
| `FormatDragon.LossInNumbers` | thirdpart/spdlog/fmt/bundled/format-inl.h:2273-2302 | that condition in whole numbers |
| `FormatDragon.OnlyImplicitBit` | thirdpart/spdlog/fmt/bundled/format-inl.h:2395-2402 | for the significands that come with a closer predecessor nothing is lost |
| `Grisu.GetRoundDirection` | thirdpart/spdlog/fmt/bundled/format-inl.h:622-637 | down, up or unknown exactly when all, none or some numbers within the error are below half |
| `Grisu.GenDigitsHandler.OnDigit` | thirdpart/spdlog/fmt/bundled/format-inl.h:654-685 | the verdict on a digit row, and the rounded row on success; a carry out of the front makes it one digit longer in fixed notation and raises the exponent otherwise |
| `Grisu.GenDigitsHandler.CarryNines` | thirdpart/spdlog/fmt/bundled/format-inl.h:673-676 | the carry loop keeps the number |
| `Grisu.GenDigitsHandler.FixFront` | thirdpart/spdlog/fmt/bundled/format-inl.h:677-683 | a carry out of the first digit is one more digit in fixed notation, with the exponent unchanged, and one more exponent otherwise |
| `Grisu.CountDigitsBracket` | thirdpart/spdlog/fmt/bundled/format-inl.h:702-702 | the digit count brackets the number between powers of ten |
| `GrisuGen.GenDigits` | thirdpart/spdlog/fmt/bundled/format-inl.h:691-786 | a finished row is within half a place of every number within the error, ends at the place asked for and has the digits asked for, or in fixed notation one more exactly when all digits carried; it gives up only where the digits settle nothing, or for leading zeros around half a place, and then leaves digits and exponent consistent; no 64-bit overflow; termination |
| `GrisuGen.IntegralDigits` | thirdpart/spdlog/fmt/bundled/format-inl.h:726-775 | digits * place + remainder is the scaled number throughout the first loop |
| `GrisuGen.FractionDigits` | thirdpart/spdlog/fmt/bundled/format-inl.h:777-785 | the same for the second loop, which the error ends after 19 digits at the latest |
| `GrisuGen.LeadingZeros` | thirdpart/spdlog/fmt/bundled/format-inl.h:715-723 | the precision met by leading zeros: one rounded digit, given up if and only if the number is around half a place |
| `GrisuGen.AroundHalfMeans` | thirdpart/spdlog/fmt/bundled/format-inl.h:715-723 | around half a place: all numbers the error leaves open, and none farther than about a hundred units |
| `GrisuGen.GivenUpEarly` | thirdpart/spdlog/fmt/bundled/format-inl.h:715-723 | a number that is given up although the error leaves nothing open |
| `Grisu.UndecidedNumbers` | thirdpart/spdlog/fmt/bundled/format-inl.h:654-668 | where the digits settle nothing, two numbers within the error round differently at the digit asked for, or the error of the fraction has reached what is left |
| `Grisu.NearestForReals` | thirdpart/spdlog/fmt/bundled/format-inl.h:667-684 | for every real number within the error the row is within half a place |
| `Grisu.HalfPlaceIsNearest` | thirdpart/spdlog/fmt/bundled/format-inl.h:667-684 | no other multiple of the place is nearer |
| `Divisibility.InverseTest` | thirdpart/spdlog/fmt/bundled/format-inl.h:971-971 | for an inverse m of d modulo w: x*m mod w <= (w-1)/d if and only if d divides x, and then it is the quotient |
| `Divisibility.Table32IsRight` | thirdpart/spdlog/fmt/bundled/format-inl.h:964-970 | every table entry is the inverse of its power of 5 and its largest quotient |
| `Divisibility.Table64IsRight` | thirdpart/spdlog/fmt/bundled/format-inl.h:975-999 | the same for all 24 entries of 64 bits |
| `Divisibility.DivisibleByPowerOf5In32` | thirdpart/spdlog/fmt/bundled/format-inl.h:962-972 | true exactly for the multiples of 5^e |
| `Divisibility.DivisibleByPowerOf5In64` | thirdpart/spdlog/fmt/bundled/format-inl.h:973-1001 | true exactly for the multiples of 5^e |
| `TrailingZeros.RemoveTrailingZeros32` | thirdpart/spdlog/fmt/bundled/format-inl.h:1928-1953 | n is divided by 10^s, and s is at the cap or nothing is left to divide |
| `TrailingZeros.RemoveTrailingZeros64` | thirdpart/spdlog/fmt/bundled/format-inl.h:1956-2038 | the same by way of 10^8 and 32-bit words |
| `TrailingZeros.ZerosRemovedIsLargest` | thirdpart/spdlog/fmt/bundled/format-inl.h:1927-1956 | 10^k divides n if and only if k <= s, for every k up to the cap |
| `CircularQueue.CircularQ.PushBack` | thirdpart/spdlog/details/circular_q.h:49-62 | the contents become the newest entries that fit; the overrun counter grows exactly when one is lost |
| `CircularQueue.CircularQ.PopFront` | thirdpart/spdlog/details/circular_q.h:99-102 | the oldest entry goes |
| `CircularQueue.CircularQ.Front` | thirdpart/spdlog/details/circular_q.h:66-74 | the oldest entry |
| `CircularQueue.CircularQ.Size` | thirdpart/spdlog/details/circular_q.h:77-87 | the number of entries, wherever the buffer wraps |
| `CircularQueue.CircularQ.At` | thirdpart/spdlog/details/circular_q.h:91-95 | the i-th oldest entry |
| `CircularQueue.CircularQ.Empty` | thirdpart/spdlog/details/circular_q.h:104-107 | empty contents |
| `CircularQueue.CircularQ.Full` | thirdpart/spdlog/details/circular_q.h:109-117 | as many entries as fit; never for a disabled queue |
| `CircularQueue.CircularQ.MoveFrom` | thirdpart/spdlog/details/circular_q.h:37-46 | the entries move over and the other queue is disabled |
| `CircularQueue.Conservation` | thirdpart/spdlog/details/circular_q.h:49-102 | pushed = popped + size + overruns after any history, and what is left is the newest part of what was pushed |
| `CircularQueue.Replay` | thirdpart/spdlog/details/circular_q.h:49-102 | the class, driven by any history, is in the state the history says |
| `CircularQueue.RingbufferSink.SinkIt` | thirdpart/spdlog/sinks/ringbuffer_sink.h:59-62 | the sink keeps the newest part of its whole history |
| `CircularQueue.RingbufferSink.LastRaw` | thirdpart/spdlog/sinks/ringbuffer_sink.h:28-40 | the newest entries of the history in order, at most lim of them |
| `BlockingQueue.PushIsNewest` | thirdpart/spdlog/details/mpmc_blocking_q.h:43-50 | pushing in the state machine is the push of the ring |
| `BlockingQueue.StepKeeps` | thirdpart/spdlog/details/mpmc_blocking_q.h:32-67 | every atomic step keeps first-in-first-out order and the two notification counts, spurious wake-ups and time-outs included |
| `BlockingQueue.NoLostWakeUp` | thirdpart/spdlog/details/mpmc_blocking_q.h:32-67 | in any run: with no notification on its way, a sleeping consumer means an empty queue and a sleeping producer a full one |
| `BlockingQueue.NoDeadlock` | thirdpart/spdlog/details/mpmc_blocking_q.h:32-67 | producers and consumers never all sleep |
| `QueueCalls.DequeueEndsIff` | thirdpart/spdlog/details/mpmc_blocking_q.h:51-67 | in any run: a call of dequeue_for comes back without an item if and only if it looks after its time-out at an empty queue, and with the oldest item if and only if it looks at a queue that is not empty; on any other wake-up it sleeps on |
| `QueueCalls.EveryOfferPushed` | thirdpart/spdlog/details/mpmc_blocking_q.h:32-47 | in any run, every item a producer came with was pushed once or is still in its hands |
| `QueueCalls.EnqueueSleepsIff` | thirdpart/spdlog/details/mpmc_blocking_q.h:32-40 | a call of enqueue sleeps, at first or again, if and only if it looks at a full queue |
| `QueueCalls.LeavesIff` | thirdpart/spdlog/details/mpmc_blocking_q.h:32-67 | an item is dropped only as the oldest one of a full queue by an enqueue that does not wait, and taken only by a consumer that looks |
| `ThreadPool.ActKeeps` | thirdpart/spdlog/details/thread_pool-inl.h:45-138 | live workers = terminate messages not yet posted + queued + in a worker's hands + dropped by the overrun policy, and every message taken out is handled or in one worker's hands, after every act, late posts included |
| `ThreadPool.ShutdownDeliversAll` | thirdpart/spdlog/details/thread_pool-inl.h:16-60 | in any run without late posts: after the join the queue is empty and every message pushed was handled exactly once, unless the overrun policy dropped it |
| `ThreadPool.JoinedHandledAll` | thirdpart/spdlog/details/thread_pool-inl.h:88-138 | in any run, after the join: every message pushed was handled exactly once, dropped by the overrun policy, or is still queued |
| `ThreadPool.OneWorkerKeepsOrder` | thirdpart/spdlog/details/thread_pool-inl.h:100-138 | with one worker, after the join, the messages handled are those that left the queue without the dropped ones, in the order of their pushes |
| `ThreadPool.TakenOutInOrder` | thirdpart/spdlog/details/thread_pool-inl.h:100-138 | the messages taken out are those that left the queue, the dropped ones removed, in the same order |
| `ThreadPool.NeverStuck` | thirdpart/spdlog/details/thread_pool-inl.h:45-60 | while a worker is alive during the shutdown and no terminate message was dropped, some thread can go on |
| `ThreadPool.ShutdownIsBounded` | thirdpart/spdlog/details/thread_pool-inl.h:45-60 | the shutdown takes a bounded number of acts, spurious wake-ups, time-outs and late posts aside |
| `ThreadPool.ShutdownFinishes` | thirdpart/spdlog/details/thread_pool-inl.h:45-60 | where only spurious wake-ups and new posts are left, all workers have exited if and only if no terminate message was dropped |
| `LatePosts.LostByDrop` | thirdpart/spdlog/details/thread_pool-inl.h:88-98 | an act drops a terminate message if and only if it is a post with the overrun policy onto a full queue with such a message at its front |
| `LatePosts.RunDrops` | thirdpart/spdlog/details/thread_pool-inl.h:88-98 | a run drops as many terminate messages as it has such posts |
| `LatePosts.NeverJoins` | thirdpart/spdlog/details/thread_pool-inl.h:45-60 | once one was dropped, no continuation lets all workers exit |
| `LatePosts.LatePostsHarmless` | thirdpart/spdlog/details/thread_pool-inl.h:45-98 | at the end of a shutdown all workers have exited if and only if the run had no such post, and if it had, they never will |
| `LatePosts.LatePostExample` | thirdpart/spdlog/details/thread_pool-inl.h:45-98 | a pool with one slot, one worker and one late post whose worker never exits |
| `LatePosts.LeftWaiting` | thirdpart/spdlog/details/thread_pool-inl.h:45-98 | where only spurious wake-ups and new posts are left, a producer still in its call sleeps, and the queue is full |
| `LatePosts.LatePostReturnsIff` | thirdpart/spdlog/details/thread_pool-inl.h:88-98 | after the join a post with the blocking policy can return if and only if there is room in the queue |
| `Flow.HashIsSymmetric` | src/flow.h:37-42 | both directions of a conversation have one hash |
| `Flow.HashOfXor` | src/flow.h:37-42 | the hash of two keys combined field by field is the combination of their hashes |
| `Flow.HashOfOneField` | src/flow.h:37-42 | a key with one field that is not zero hashes to that field; with HashOfXor this determines the hash |
| `Flow.EveryFieldCounts` | src/flow.h:37-42 | keys that differ in exactly one field have different hashes |
| `Flow.HashCollision` | src/flow.h:103-109 | two unrelated conversations with one hash, and so one entry |
| `FlowCaching.FlowCache.Insert` | src/flowCache.h:31-42 | the flow goes to the end of the list, with its own iterator |
| `FlowCaching.FlowCache.Update` | src/flowCache.h:20-29 | the flow moves to the end of the list, every iterator still points at its own cell |
| `FlowCaching.FlowCache.Delete` | src/flowCache.h:68-73 | exactly the cell of the flow and its iterator go |
| `FlowCaching.FlowCache.GetExpired` | src/flowCache.h:54-66 | the front of the list, if its time is up |
| `FlowCaching.LinkedDelete` | src/flowCache.h:68-73 | erasing by iterator keeps every iterator on the cell of its own flow |
| `FlowCaching.ErasedAt` | src/flowCache.h:68-73 | erasing takes one cell out and keeps the order of the rest |
| `Decoding.LayersMean` | src/decode.cpp:199-237 | walking the layers of a frame gives its five-tuple, length and flags |
| `Decoding.RecognizeFlow` | src/decode.cpp:199-237 | the loop does that walk, and yields the meaning of every frame the recogniser can produce |
| `Decoding.Decode.InsertFlow` | src/decode.cpp:286-294 | a new flow enters table and cache together |
| `Decoding.Decode.DumpFlow` | src/decode.cpp:296-327 | one record with the counters of the flow and its end time |
| `Decoding.Decode.EraseFlow` | src/decode.cpp:339-343 | table and cache lose the flow together |
| `Decoding.Decode.CountPacket` | src/decode.cpp:258-273 | the packet is added to the counters of its direction; the sender is one of the two ends |
| `Decoding.Decode.CloseFlow` | src/decode.cpp:275-283 | a flow with its two closing packets is ended by the next packet, at the time read; otherwise the closing flag is noted |
| `Decoding.Decode.InsertFlowTable` | src/decode.cpp:239-284 | which flow counts the packet, what becomes of it, which records are written and when they end, and that all other flows stay as they are; told from the packets before: it ends its flow if and only if exactly two of the flow's packets close and the last one does, and a SYN starts the flow over if and only if the last one was none |
| `Decoding.Decode.ParseFlow` | src/decode.cpp:184-197 | each frame of a burst is counted once, in order |
| `Decoding.Decode.ClearExpiredFlow` | src/decode.cpp:345-356 | terminates; ends exactly the flows whose expiry time is at most now, with records that end now |
| `Decoding.NothingExpired` | src/decode.cpp:345-356 | when the front of the list has time left, every stored flow has |
| `Decoding.Decode.DumpAllFlow` | src/decode.cpp:329-337 | one record for every stored flow, ending now; the table is empty afterwards |
| `Decoding.Decode.RunningTotals` | src/decode.cpp:258-273 | at any moment packets and bytes in records and stored flows are those inserted, modulo 2^32 for each counter |
| `Decoding.Decode.DecodeProcess` | src/decode.cpp:45-73 | at the end of the run every flow has exactly one record, every record has the key of the first packet of its flow and is right about all of them, and all packets and bytes are accounted for |
| `Decoding.SenderIsKnown` | src/decode.cpp:239-262 | the assertion about the sender holds when equal hashes among the keys on the wire mean the same two ends |
| `Collisions.NeverFailsIff` | src/decode.cpp:239-262 | no run over a set of keys fails that assertion if and only if no two keys of the set collide |
| `Collisions.MeetingFails` | src/decode.cpp:239-262 | any packet of one key and then one of a colliding key, unless it starts the flow over, fails it |
| `Collisions.Feed` | src/decode.cpp:184-284 | the decoder itself goes through such a run, and stops where the assertion would fail |
| `Collisions.Meet` | src/decode.cpp:239-262 | the two packets stop any new decoder at the second one |
| `Decoding.Decode.constructor` | src/decode.cpp:4-18 | the time-out asked for if it is at least a second, otherwise the default; empty table |
| `FlowState.SoundOpen` | src/decode.cpp:247-257 | opening a flow keeps timetable, places, counters and closing flags sound |
| `FlowState.SoundCount` | src/decode.cpp:258-273 | counting a packet does |
| `FlowState.SoundMark` | src/decode.cpp:281-282 | noting the closing flag does; the closing count stays at most 2, and 2 only after a closing packet |
| `FlowState.SoundErase` | src/decode.cpp:296-343 | dumping and erasing does; the flow moves from the table into one record |
| `FlowTally.CountingKeepsRight` | src/decode.cpp:258-273 | the counters are the totals of the flow's own packets, modulo their widths |
| `FlowEnds.TallyMeans` | src/decode.cpp:258-273 | these totals are counts over the flow's own packets, by sender |
| `FlowEnds.RightMeans` | src/decode.cpp:258-273 | every counter of a right flow is such a count modulo its width |
| `FlowEnds.ClosedIsOver` | src/decode.cpp:276-282 | a stored flow is closed if and only if exactly two of its packets close it and the last one does |
| `FlowEnds.ToldStep` | src/decode.cpp:239-284 | after every packet each stored flow has the ends, ports and protocol of its first packet, the flags of its last one, and the closing count of all |
| `FlowEnds.NamedStep` | src/decode.cpp:239-284 | and each record has the ends, ports and protocol of its first packet |
| `FlowTotals.EachPacketOnce` | src/decode.cpp:258-273 | over all flows, every packet and every byte is counted in exactly one flow |
| `FlowTotals.Conservation` | src/decode.cpp:258-273 | sums of the counters plus their wraps are the packets and bytes inserted |
| `FlowTotals.AllFlowsDistinct` | src/decode.cpp:239-343 | records and stored flows are different flows: none is dumped twice or dumped and stored |
| `Pipeline.Capture.ReceiveBurst` | src/core_dpdk.cpp:134-149 | what fits goes into the ring in order, the rest is freed, and the 32-bit counters follow |
| `Pipeline.Capture.DequeueBurst` | src/decode.cpp:55-59 | the decoder takes the oldest buffers, a batch at most |
| `Pipeline.Capture.ReleasePkt` | src/decode.cpp:364-370 | the whole batch is released, once |
| `Pipeline.Capture.DrainRing` | src/decode.cpp:51-69 | a stopped decoder leaves the ring empty and every accepted buffer released in order |
| `Pipeline.Capture.Conservation` | src/core_dpdk.cpp:129-151 | captured = dropped + in rings + in batches + released, and the same of the counters while they have not wrapped |
| `Pipeline.Balance` | src/core_dpdk.cpp:129-151 | the balance, from the balance of each queue |
| `Pipeline.Run` | src/core_dpdk.cpp:124-153 | all of this for every interleaving of the capturing thread and the decoders |
| `CaptureToRecords.DecodeBurst` | src/decode.cpp:51-69 | one round of the decoder counts exactly the buffers it takes out and releases, in order |
| `CaptureToRecords.DecodeRest` | src/decode.cpp:51-70 | a stopped decoder, while nothing arrives, ends with every accepted buffer of its queue counted, in order, in one flow record |
| `CaptureToRecords.CountBatch` | src/decode.cpp:60-68 | the batch taken out is counted and released |
| `CaptureToRecords.TakeTurn` | src/decode.cpp:51-72 | each turn of a thread does to the classes what it does to the life of the queue |
| `CaptureToRecords.QueueRun` | src/decode.cpp:45-73 | in any interleaving, before and after the exit: delivered = dropped + waiting + counted; after the exit the ring holds what came later and found room, and everything was dropped or counted if and only if there is no such buffer |
| `Shutdown.EachInOnePlace` | src/core_dpdk.cpp:124-153 | each buffer delivered was dropped, is in the ring or in the batch, or was counted, after every turn |
| `Shutdown.LateIsStranded` | src/main.cpp:25-47 | after the exit the ring holds what came later, as far as there is room, and that is one burst at most |
| `Shutdown.AllCountedIff` | src/decode.cpp:51-70 | after the exit everything delivered was dropped or counted if and only if nothing came later that found room |
| `Shutdown.StrandedForGood` | src/decode.cpp:51-70 | no later turn takes it out or counts it |
| `Shutdown.StrandedExample` | src/main.cpp:25-47 | a run in which one buffer is stranded |
| `FileNames.SplitByExtension` | thirdpart/spdlog/details/file_helper-inl.h:149-169 | the two parts make up the name |
| `FileNames.SplitFindsExtension` | thirdpart/spdlog/details/file_helper-inl.h:149-169 | the split finds an extension exactly when there is one |
| `FileNames.NamesDiffer` | thirdpart/spdlog/sinks/rotating_file_sink-inl.h:55-65 | different indices have different names |
| `FileNames.ExtensionKept` | thirdpart/spdlog/sinks/rotating_file_sink-inl.h:55-65 | the new name splits into the old stem with the index, and the old extension |
| `RotatingFiles.RotatingFileSink.Rotate` | thirdpart/spdlog/sinks/rotating_file_sink-inl.h:109-139 | the files are shifted by one index, with whatever gaps there are; other files stay |
| `RotatingFiles.MovedAt` | thirdpart/spdlog/sinks/rotating_file_sink-inl.h:144-149 | a rename changes the source and the target only |
| `RotatingFiles.RotateTidy` | thirdpart/spdlog/sinks/rotating_file_sink-inl.h:109-139 | a rotation gives up the oldest file only when all indices are in use, and leaves no gap |
| `RotatingFiles.RotatingFileSink.SinkIt` | thirdpart/spdlog/sinks/rotating_file_sink-inl.h:75-95 | the message is the last of the newest file; rotation happens exactly when the file would grow over the limit and is not empty |
| `RotatingFiles.Create` | thirdpart/spdlog/sinks/rotating_file_sink-inl.h:27-50 | the refused arguments; which file each one becomes when the sink is opened, with one rotation or none; tidy files stay tidy, and nothing is lost while an index is free |
| `RotatingFiles.Session` | thirdpart/spdlog/sinks/rotating_file_sink-inl.h:27-95 | from no files: the files read oldest to newest are a suffix of all output, without gaps, each within the limit or with a single large message; nothing is lost while indices are left |
| `FormatScanning.ScanShort` | thirdpart/spdlog/fmt/bundled/core.h:2619-2636 | the one-pass scanner yields the events of the reference scan |
| `FormatScanning.Write` | thirdpart/spdlog/fmt/bundled/core.h:2637-2652 | the writer of the two-pass scanner yields the events of the reference scan on a segment |
| `FormatScanning.ScanLong` | thirdpart/spdlog/fmt/bundled/core.h:2653-2661 | the two-pass scanner yields the events of the reference scan, so both scanners agree on every string |
| `FormatScanning.ParseFormatString` | thirdpart/spdlog/fmt/bundled/core.h:2611-2662 | the choice between them does not matter |
| `FormatScanning.EscapeRoundTrip` | thirdpart/spdlog/fmt/bundled/core.h:2592-2593 | text with its braces doubled comes out as itself |
| `FormatScanning.PlainIffEscaped` | thirdpart/spdlog/fmt/bundled/core.h:2611-2662 | a format string means plain text if and only if it is that text with its braces doubled |
| `FormatPieces.RenderRoundTrip` | thirdpart/spdlog/fmt/bundled/core.h:2572-2661 | literals and fields that are written down and scanned come out as meant: text, argument, replacement or specifications, in order |
| `FormatPieces.UnmatchedBrace` | thirdpart/spdlog/fmt/bundled/core.h:2628-2629 | a closing brace alone ends the scan with its message |
| `FormatPieces.OpenAtEnd` | thirdpart/spdlog/fmt/bundled/core.h:2589-2589 | an opening brace at the end does |
| `FormatPieces.MissingBrace` | thirdpart/spdlog/fmt/bundled/core.h:2604-2605 | an id that neither a closing brace nor a colon follows does |
| `FormatPieces.UnknownSpecifier` | thirdpart/spdlog/fmt/bundled/core.h:2600-2603 | specifications that no closing brace follows do |
| `FormatPieces.RefusalEnds` | thirdpart/spdlog/fmt/bundled/core.h:2572-2661 | for any handler, the scan goes on as long as it agrees, and ends at the first refusal or error |
| `IsoWeek.LeapCount` | thirdpart/spdlog/fmt/bundled/chrono.h:1018-1023 | the closed form of the days before a year |
| `IsoWeek.ShiftIsNextNewYear` | thirdpart/spdlog/fmt/bundled/chrono.h:1018-1020 | the number computed for a year is the day of the week on which the next one starts |
| `IsoWeek.WeeksOfYear` | thirdpart/spdlog/fmt/bundled/chrono.h:1016-1025 | from year 0 on, 53 weeks exactly for the years that start or end on a Thursday; 52 for every earlier year |
| `IsoWeek.IsoWeekRightIff` | thirdpart/spdlog/fmt/bundled/chrono.h:1026-1043 | for every date of every year, year and week are those of the Thursday of its week if and only if that is not the week 53 of a negative year; the same as a guard on year, day of the year and day of the week |
| `IsoWeek.IsoWeekIsUnique` | thirdpart/spdlog/fmt/bundled/chrono.h:1030-1043 | there is only one such year and week |
| `IsoWeek.NegativeYearGoesWrong` | thirdpart/spdlog/fmt/bundled/chrono.h:1016-1025 | a date of the year -1 for which the guard holds and the result is wrong |

## Left out

- ThreadPool.ShutdownDeliversAll: for runs in which nobody posts once the destructor runs and no post is in progress then; `JoinedHandledAll` and `LatePostsHarmless` cover all others.
- BlockingQueue.StepKeeps: the queue is a state machine on values rather than a class, so that every interleaving of its steps can be stated; the mutex and the condition variables appear as atomic steps and thread states only. The variant for MinGW notifies under the mutex; its behaviours are those where a notification follows its push or pop at once.
- Bignum.Bigint.DivmodAssign: requires a number at most one digit longer than the divisor and no tie of unequal exponents; the digit generators are proved to meet both.
- Bignum.Bigint.AssignPow10: exponents from 2^30 on, where the bit scan of a 32-bit int overflows.
- GrisuGen.GenDigits: the error is 1, as its only caller passes it; the buffer holds at least 30 characters.
- FormatDragon.Format: requires the caller's exponent estimate not to be too small (numerator < 10 * denominator); the estimate itself, `format_float` and `snprintf_float` are not part of this model.
- TrailingZeros.RemoveTrailingZeros64: requires n / 10^8 to fit into 32 bits, as the code's comment does; the caps come from `format.h` and are a parameter.
- Decoding.Decode.CloseFlow: flows are values, not heap objects; the writes to a flow after it was dumped and deleted have no effect.
- Decoding.Decode.DumpFlow: the text of a record, addresses and time strings; the clock is any sequence of times that does not go back.
- Decoding.Decode.DecodeProcess: flow mode only; the single-packet mode just writes text. Frames arrive as the recognised layers; `RecognizeProto`, which reads them from raw buffers and skips buffers it cannot read, is not part of this model. The ring is the sequence of bursts taken out of it, an empty one when there was nothing; `CaptureToRecords` has the ring itself, with the frame of each filled buffer as a parameter.
- FlowCaching.FlowCache.Insert: hash maps keep one entry per hash value, as the equality functor makes them; the list iterator is the identity of its cell.
- Pipeline.Capture.ReceiveBurst: network card, buffer pool and the ring's own implementation; the ring is a bounded FIFO with a capacity parameter.
- Shutdown.LateIsStranded: both threads go on until they leave their loops; that `main` returns after the last round, shuts the packet library down and ends the process, which may cut a decoder off before its final dump, is not part of this model.
- RotatingFiles.RotatingFileSink.Rotate: failing renames, retries and the exceptions after them; files are a finite map, and the content of a file is kept message by message.
- FileNames.SplitByExtension: the folder separator of Linux only.
- FormatScanning.ParseReplacementField: parsing of argument ids and format specifications, and the handler, are parameters; an error ends the scan, as `on_error` does not return.
- Widths of exponents, sizes and the overrun counter of the queue, which are int or size_t in the code and cannot be reached.
- Dragonbox, the cached powers of ten, and `count_digits` beyond its definition.
- `FlowCache::Expired`, which nothing uses, and a cache capacity other than 0 in the decoder.
- The other sinks, the registry, pattern flags, locales, colours, wide characters and the kernel module.
