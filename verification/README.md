# Virtual filter — a Dafny model

The virtual filter samples a stream of flow records while suppressing
duplicates. Each record is a (source, destination) pair. Its key
`source + "," + destination` is hashed into a space of `totalSize` buckets.
The first `realSize` buckets form the *real part*, which a bitmap tracks. The
rest form the *virtual part*, which nothing tracks.

For each item, `processItem` does one of three things:

- A hit in the virtual part is ignored.
- A hit on a bucket that is already set is a duplicate and is ignored.
- A first-time hit sets the bucket and decrements `zeroCount`, the number of
  unset buckets. It then samples the item with the adjusted probability
  `realSize * p / zeroCount`.

The model is functional. A filter's mutable state is a value
`State(bitmap, zeroCount)`. One call of `processItem` is a pure step from a
state to a verdict and a new state.

Modules:

- `JavaInt` (`java_int.dfy`): Java `int` values (`Int32`), two's complement
  wrap-around, `Math.abs` (it overflows on `Integer.MIN_VALUE`) and the
  truncating `%` operator.
- `Bitmap` (`bitmap.dfy`): the number of unset bitmap entries, and how setting
  one entry changes it.
- `VirtualFilter` (`virtual_filter.dfy`): the configuration, the state and its
  invariant, the constructor (`Init`), `hash` (`Hash`), the decision step on a
  known bucket (`Step`), `processItem` on a pair of strings (`ProcessItem`),
  and a sequence of calls (`Run`).
- `FilterProperties` (`filter_properties.dfy`): frame, monotonicity and
  sampling lemmas about the step and about runs.
- `CorrectedHash` (`corrected_hash.dfy`): the out-of-bounds bucket described
  under Findings, and the corrected hash.

The model's inputs:

- The key's `String.hashCode()` is a parameter `hashCode: string -> Int32`.
  Nothing is assumed about it beyond being a function. This makes bucket
  assignment deterministic.
- The value of `random.nextDouble()` is a parameter `r`.
- Probabilities are `real`s.
- When the division on line 39 has `zeroCount == 0`, Java's `double` division
  gives +Infinity, NaN or -Infinity, depending on the sign of
  `realSize * p`. Only +Infinity exceeds a draw. The model therefore samples
  the item exactly when `realSize * p > 0` (`Admits`).

What the code does not guarantee or check, and the model follows it:

- `hash` does not keep every bucket in `[0, totalSize)` (see Findings).
- The constructor checks none of its arguments, and there is no reset.
  `0 < realSize <= totalSize` is therefore a precondition
  (`Config.WellFormed`), not an error path.

## Model

| member | source | states |
|---|---|---|
| JavaInt.Abs | VirtualFilter.java:48 | `Math.abs` returns the magnitude for every `int` except `Integer.MIN_VALUE`, which it returns unchanged (overflow) |
| JavaInt.Rem | VirtualFilter.java:48 | Java `%`: the result is smaller in magnitude than the divisor, takes the dividend's sign, and differs from the dividend by a multiple of the divisor |
| Bitmap.CountZeros | VirtualFilter.java:8 | the count of unset entries is at most the length; it is 0 exactly when every entry is set, and equals the length exactly when none is |
| Bitmap.AllUnset | VirtualFilter.java:16-17 | a new `boolean[realSize]` has `realSize` entries, all unset, so its zero count is `realSize` |
| Bitmap.SetRemovesOneZero | VirtualFilter.java:34-35 | setting one unset entry lowers the count of unset entries by exactly one, which keeps the `zeroCount` comment on line 8 true |
| VirtualFilter.Init | VirtualFilter.java:12-19 | the constructor's state has every entry unset and `zeroCount == realSize`, so the invariant "`zeroCount` = number of unset entries" holds |
| VirtualFilter.Hash | VirtualFilter.java:47-49 | the bucket lies strictly between `-totalSize` and `totalSize`; for any hash code other than `Integer.MIN_VALUE` it is in `[0, totalSize)` and equals the magnitude modulo `totalSize`; it is negative exactly when the hash code is `Integer.MIN_VALUE` and `totalSize` does not divide 2^31 |
| VirtualFilter.Step | VirtualFilter.java:25-44 | the call throws exactly for a negative bucket; otherwise it keeps the invariant; the state changes exactly on a first-time real-part hit; only such a hit is sampled |
| VirtualFilter.ProcessItem | VirtualFilter.java:21-45 | `processItem` throws exactly when the key's hash code is `Integer.MIN_VALUE` and `totalSize` does not divide 2^31; otherwise it keeps the invariant |
| VirtualFilter.Run | VirtualFilter.java:21-45 | a sequence of calls aborts exactly when some bucket is negative; a completed sequence keeps the invariant, gives one verdict per item, clears no set bit, and samples no more items than `zeroCount` fell |
| FilterProperties.VirtualHitIgnored | VirtualFilter.java:26-28 | a bucket at or above `realSize` gives "Not Sampled" and leaves the state unchanged, whatever the history |
| FilterProperties.DuplicateIgnored | VirtualFilter.java:31-32 | a real bucket that is already set gives "Not Sampled" and leaves the state unchanged |
| FilterProperties.FirstHitSetsOneBit | VirtualFilter.java:33-36 | a first-time hit sets its own bit, leaves every other index as it was, and decrements `zeroCount` by exactly 1 without going below 0 |
| FilterProperties.StepMonotone | VirtualFilter.java:31-36 | after any completed call `0 <= zeroCount' <= zeroCount <= realSize`, and no set bit is cleared |
| FilterProperties.SampledIff | VirtualFilter.java:26-44 | "Sampled" is returned if and only if the call is a first-time hit and the draw passes the test against `realSize * p` divided by the decremented `zeroCount` |
| FilterProperties.Saturation | VirtualFilter.java:39-41 | if the decremented `zeroCount` is at least 1 and `realSize * p >= zeroCount`, every draw in `[0, 1)` gives "Sampled" |
| FilterProperties.FullTargetSamplesEveryFirstHit | VirtualFilter.java:39-41 | with target probability 1, every first-time hit is sampled for every draw in `[0, 1)` |
| FilterProperties.LastBucketDividesByZero | VirtualFilter.java:35-41 | `zeroCount` reaches 0 on a call exactly when it fills the last unset real bucket; that call leaves the bitmap full and samples exactly when `realSize * p > 0` |
| FilterProperties.SingleBucketScenario | VirtualFilter.java:31-41 | with `realSize = 1`, `totalSize = 2` and `p = 0.5`: the first hit on bucket 0 is sampled for any draw and empties `zeroCount`; a second hit is a duplicate |
| FilterProperties.RunSetsHitBuckets | VirtualFilter.java:31-36 | after a completed sequence of calls, every bucket below `realSize` that the sequence hit is non-negative and set |
| FilterProperties.RunSetsOnlyHitBuckets | VirtualFilter.java:31-36 | a bit set after a completed sequence of calls was set before it or was hit by it; with `RunSetsHitBuckets`, the bitmap records exactly the buckets that received a first-time hit |
| FilterProperties.DuplicateSuppressedAfterRun | VirtualFilter.java:31-32 | once a sequence has hit a real bucket, any later call on that bucket gives "Not Sampled" and leaves the state unchanged |
| FilterProperties.RunFromInitSamplesAtMostRealSize | VirtualFilter.java:17-41 | a new filter samples at most `realSize` items over any completed sequence of calls |
| FilterProperties.EqualKeysSuppressed | VirtualFilter.java:22-23 | two pairs with the same joined key fall in the same bucket, so the second gives "Not Sampled" and leaves the state unchanged after the first completed |
| FilterProperties.TextIdentifiesDecision | VirtualFilter.java:27-44 | the string returned is "Sampled" exactly for a sampled item and "Not Sampled" exactly for any other |
| FilterProperties.CommaPairsCollide | VirtualFilter.java:22 | the pairs ("a,b", "c") and ("a", "b,c") have the same key |
| CorrectedHash.KeyHashCode | VirtualFilter.java:22-23 | the key "a,HVDABCW" of the pair ("a", "HVDABCW") has Java hash code `Integer.MIN_VALUE`; the key is ASCII, where `StringHashCode` agrees with Java |
| CorrectedHash.MinValueKeyEscapes | VirtualFilter.java:26-31 | with `main`'s sizes the bucket of hash code `Integer.MIN_VALUE` is -983648, which passes the virtual-part test; `processItem` on ("a", "HVDABCW") therefore throws at the bitmap access from any state |
| CorrectedHash.FixedHash | VirtualFilter.java:48 | the corrected bucket is always in `[0, totalSize)` and equals `hash` as written for every other hash code |
| CorrectedHash.ProcessItemFixed | VirtualFilter.java:21-45 | with the corrected bucket, `processItem` never throws, keeps the invariant, and agrees with the code as written whenever the key's hash code is not `Integer.MIN_VALUE` |

## Left out

- `main` (VirtualFilter.java:51-96) is not modelled. It reads the input file, splits lines on tabs, writes output and prints progress, which is all I/O. `Run` stands for its loop of `processItem` calls, taking one bucket and one draw per record. The Java loop calls `random.nextDouble()` only after a first-time hit, so `Run` reads `rs[k]` only for such a record and the other entries of `rs` stand for no draw.
- `java.util.Random` is not modelled. Each draw is a parameter, and a caller that follows `nextDouble()` passes a value in `[0, 1)`.
- IEEE-754 `double` arithmetic is not modelled. Probabilities are exact reals. Rounding of `realSize * p / zeroCount` and overflow of `realSize * p` to Infinity are ignored. The one non-finite case the code reaches, division by a zero `zeroCount`, is modelled by its outcome (see `Admits`).
- Java's `String.hashCode` is a parameter of the filter. `CorrectedHash.StringHashCode` defines it only to name a concrete key for the finding.
- CorrectedHash.StringHashCode: agrees with Java only for strings whose characters all lie in the Basic Multilingual Plane. Dafny's `char` is a Unicode scalar value, while Java hashes UTF-16 code units, so a character outside that plane counts as one term here and two in Java. The finding's key is ASCII, so it is not affected.
- Reset and constructor validation are not modelled because the code has neither. The constructor's arguments are constrained by `Config.WellFormed` instead.
- The target-rate promise is not stated. It says the expected number of sampled items stays near `realSize * p`. That is a probabilistic claim about the random draws, and the model has no probability measure.
- Reproducibility of decisions under a fixed seed holds without a lemma, because every operation of the model is a function of its inputs.
- Concurrency is not modelled because the code is single-threaded.
- VirtualFilter.Step: does not model Java `int` wrap-around of `zeroCount--`, because under the invariant `zeroCount` is at least 1 before every decrement.

## Findings

| source | as written | input that shows it | evidently intended | confidence | as-written member | corrected member |
|---|---|---|---|---|---|---|
| VirtualFilter.java:48 | the bucket is the Java `int` absolute value of the key's hash code, reduced with the truncating `%`; the absolute value of `Integer.MIN_VALUE` overflows to itself, so the bucket can be negative, passes the virtual-part test on line 26 and indexes the bitmap below 0 on line 31 | the pair ("a", "HVDABCW"), whose key "a,HVDABCW" has hash code -2147483648, with `totalSize = 1500000` as in `main`: bucket -983648, `ArrayIndexOutOfBoundsException` | every bucket lies in `[0, totalSize)`, as the range check on line 26 presumes | not executed | CorrectedHash.MinValueKeyEscapes | CorrectedHash.FixedHash |
