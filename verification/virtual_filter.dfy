/** The virtual filter: a duplicate-suppressing sampler whose hash space of
    `totalSize` buckets has a tracked real part `[0, realSize)`, backed by a
    bitmap, and an untracked virtual part `[realSize, totalSize)`. A first-time
    hit in the real part is sampled with probability `realSize * p / zeroCount`,
    where `zeroCount` counts the real buckets still unset. */
module VirtualFilter {
  import opened JavaInt
  import opened Bitmap

  /** The constructor's arguments. The constructor checks none of them; the
      filter is only meaningful when `WellFormed` holds. */
  datatype Config = Config(realSize: int, totalSize: int, samplingProbability: real)
  {
    /** Both sizes are Java `int`s, the bitmap is non-empty and the real part
        lies inside the hash space. */
    predicate WellFormed() {
      0 < realSize <= totalSize <= MAX_VALUE
    }

    /** `realSize * samplingProbability`, the numerator of the adjusted probability. */
    function Weight(): real {
      realSize as real * samplingProbability
    }
  }

  /** The mutable part of a filter: the real part of the bitmap and the
      number of its entries that are still unset. */
  datatype State = State(bitmap: seq<bool>, zeroCount: int)

  /** The class invariant: the bitmap has `realSize` entries and `zeroCount`
      is the number of them that are unset. */
  predicate Inv(c: Config, s: State) {
    |s.bitmap| == c.realSize && s.zeroCount == CountZeros(s.bitmap)
  }

  /** The verdict `processItem` returns, as its string. */
  datatype Decision = Sampled | NotSampled
  {
    function Text(): string {
      match this
      case Sampled => "Sampled"
      case NotSampled => "Not Sampled"
    }
  }

  /** What one call of `processItem` does: it returns a verdict and leaves a
      new state, or it throws `ArrayIndexOutOfBoundsException` at the bitmap
      access for a negative bucket (the state is then untouched). */
  datatype Outcome = Done(decision: Decision, next: State) | IndexOutOfBounds(index: int)

  /** The state a new filter starts in. */
  function Init(c: Config): (s: State)
    requires c.WellFormed()
    ensures Inv(c, s)
    ensures s.zeroCount == c.realSize
    ensures forall i :: 0 <= i < |s.bitmap| ==> !s.bitmap[i]
  {
    State(AllUnset(c.realSize), c.realSize)
  }

  /** The bucket `hash` assigns to an item whose `hashCode()` is `hashCode`:
      `Math.abs(hashCode) % totalSize` in Java `int` arithmetic. It lies in the
      hash space except when `Math.abs` overflows on `Integer.MIN_VALUE` and
      `totalSize` does not divide 2^31; the bucket is then negative. */
  function Hash(hashCode: Int32, totalSize: int): (h: int)
    requires 0 < totalSize <= MAX_VALUE
    ensures -totalSize < h < totalSize
    ensures hashCode != MIN_VALUE ==> h == Mag(hashCode) % totalSize
    ensures h < 0 <==> hashCode == MIN_VALUE && 0x8000_0000 % totalSize != 0
  {
    Rem(Abs(hashCode), totalSize)
  }

  /** The string `processItem` hashes: the two fields joined by a comma. */
  function ItemKey(source: string, destination: string): string {
    source + "," + destination
  }

  /** Bucket `h` is in the real part and has not been hit before. */
  predicate FirstHit(s: State, h: int) {
    0 <= h < |s.bitmap| && !s.bitmap[h]
  }

  /** The sampling test: the draw `r` falls below `weight / zeroCount`. Java
      divides `double`s, so a zero divisor yields +Infinity, NaN or -Infinity
      according to the sign of `weight`, and only +Infinity exceeds a draw. */
  predicate Admits(weight: real, zeroCount: int, r: real) {
    if zeroCount == 0 then weight > 0.0 else r < weight / zeroCount as real
  }

  /** `processItem` once the bucket `h` is known, with `r` the value of
      `random.nextDouble()`. Only a first-time hit in the real part changes the
      state, and only such a hit can be sampled. */
  function Step(c: Config, s: State, h: int, r: real): (o: Outcome)
    requires c.WellFormed() && Inv(c, s)
    ensures o.IndexOutOfBounds? <==> h < 0
    ensures o.IndexOutOfBounds? ==> o.index == h
    ensures o.Done? ==> Inv(c, o.next)
    ensures o.Done? ==> (o.next == s <==> !FirstHit(s, h))
    ensures o.Done? && o.decision == Sampled ==> FirstHit(s, h)
  {
    if h >= c.realSize then Done(NotSampled, s)
    else if h < 0 then IndexOutOfBounds(h)
    else if s.bitmap[h] then Done(NotSampled, s)
    else
      SetRemovesOneZero(s.bitmap, h);
      var next := State(s.bitmap[h := true], s.zeroCount - 1);
      assert next.bitmap[h] != s.bitmap[h];
      Done(if Admits(c.Weight(), next.zeroCount, r) then Sampled else NotSampled, next)
  }

  /** `processItem(source, destination)`, with the item's `String.hashCode()`
      given by the function `hashCode` and `r` the random draw. */
  function ProcessItem(c: Config, s: State, hashCode: string -> Int32,
                       source: string, destination: string, r: real): (o: Outcome)
    requires c.WellFormed() && Inv(c, s)
    ensures o.IndexOutOfBounds? <==>
              hashCode(ItemKey(source, destination)) == MIN_VALUE && 0x8000_0000 % c.totalSize != 0
    ensures o.Done? ==> Inv(c, o.next)
  {
    Step(c, s, Hash(hashCode(ItemKey(source, destination)), c.totalSize), r)
  }

  /** The result of feeding a filter one bucket after another: the verdicts and
      the final state, or the bucket whose exception ended the run. */
  datatype RunResult = Completed(decisions: seq<Decision>, final: State) | Aborted(index: int)

  /** The number of `Sampled` verdicts in `ds`. */
  function CountSampled(ds: seq<Decision>): nat {
    if |ds| == 0 then 0 else (if ds[0] == Sampled then 1 else 0) + CountSampled(ds[1..])
  }

  /** Successive `processItem` calls on buckets `hs` with draws `rs`. A run
      aborts exactly when some bucket is negative; otherwise it keeps the
      invariant and every set bit, and it samples no more items than it sets
      bits. */
  function Run(c: Config, s: State, hs: seq<int>, rs: seq<real>): (res: RunResult)
    requires c.WellFormed() && Inv(c, s) && |hs| == |rs|
    ensures res.Aborted? <==> exists k :: 0 <= k < |hs| && hs[k] < 0
    ensures res.Completed? ==> Inv(c, res.final) && |res.decisions| == |hs|
    ensures res.Completed? ==> CountSampled(res.decisions) <= s.zeroCount - res.final.zeroCount
    ensures res.Completed? ==>
              forall i :: 0 <= i < |s.bitmap| && s.bitmap[i] ==> res.final.bitmap[i]
    decreases |hs|
  {
    if |hs| == 0 then Completed([], s)
    else
      assert forall k :: 1 <= k < |hs| ==> hs[1..][k - 1] == hs[k];
      match Step(c, s, hs[0], rs[0])
      case IndexOutOfBounds(i) => Aborted(i)
      case Done(d, next) =>
        match Run(c, next, hs[1..], rs[1..])
        case Aborted(i) => Aborted(i)
        case Completed(ds, final) =>
          assert ([d] + ds)[1..] == ds;
          Completed([d] + ds, final)
  }
}
