/** Properties of the virtual filter's decision step and of runs of it. */
module FilterProperties {
  import opened JavaInt
  import opened VirtualFilter

  /** A bucket in the virtual part is ignored: not sampled, state untouched,
      whatever the history. */
  lemma VirtualHitIgnored(c: Config, s: State, h: int, r: real)
    requires c.WellFormed() && Inv(c, s)
    requires h >= c.realSize
    ensures Step(c, s, h, r) == Done(NotSampled, s)
  {
  }

  /** A bucket of the real part that is already set is a duplicate: not
      sampled, state untouched. */
  lemma DuplicateIgnored(c: Config, s: State, h: int, r: real)
    requires c.WellFormed() && Inv(c, s)
    requires 0 <= h < c.realSize && s.bitmap[h]
    ensures Step(c, s, h, r) == Done(NotSampled, s)
  {
  }

  /** A first-time hit sets exactly its own bit and removes exactly one zero. */
  lemma FirstHitSetsOneBit(c: Config, s: State, h: int, r: real)
    requires c.WellFormed() && Inv(c, s)
    requires FirstHit(s, h)
    ensures Step(c, s, h, r).Done?
    ensures |Step(c, s, h, r).next.bitmap| == |s.bitmap|
    ensures Step(c, s, h, r).next.bitmap[h]
    ensures forall i :: 0 <= i < |s.bitmap| && i != h ==>
              Step(c, s, h, r).next.bitmap[i] == s.bitmap[i]
    ensures Step(c, s, h, r).next.zeroCount == s.zeroCount - 1 >= 0
  {
  }

  /** Whatever a completed step does, the number of zeros stays within
      `[0, realSize]` and never grows, and no set bit is cleared. */
  lemma StepMonotone(c: Config, s: State, h: int, r: real)
    requires c.WellFormed() && Inv(c, s)
    requires Step(c, s, h, r).Done?
    ensures 0 <= Step(c, s, h, r).next.zeroCount <= s.zeroCount <= c.realSize
    ensures forall i :: 0 <= i < |s.bitmap| && s.bitmap[i] ==> Step(c, s, h, r).next.bitmap[i]
  {
  }

  /** An item is sampled exactly when it is a first-time hit and the draw
      passes the test against the decremented number of zeros. */
  lemma SampledIff(c: Config, s: State, h: int, r: real)
    requires c.WellFormed() && Inv(c, s)
    ensures Step(c, s, h, r).Done? && Step(c, s, h, r).decision == Sampled
            <==> FirstHit(s, h) && Admits(c.Weight(), s.zeroCount - 1, r)
  {
  }

  /** Once the adjusted probability reaches 1, every first-time hit is
      sampled, for every draw of `nextDouble()`. */
  lemma Saturation(c: Config, s: State, h: int, r: real)
    requires c.WellFormed() && Inv(c, s)
    requires FirstHit(s, h)
    requires s.zeroCount - 1 >= 1 && c.Weight() >= (s.zeroCount - 1) as real
    requires 0.0 <= r < 1.0
    ensures Step(c, s, h, r) == Done(Sampled, Step(c, s, h, r).next)
  {
    QuotientAtLeastOne(c.Weight(), (s.zeroCount - 1) as real);
  }

  /** With target probability 1 every first-time hit is sampled: the adjusted
      probability starts at 1 and only rises. */
  lemma FullTargetSamplesEveryFirstHit(c: Config, s: State, h: int, r: real)
    requires c.WellFormed() && Inv(c, s)
    requires c.samplingProbability == 1.0
    requires FirstHit(s, h)
    requires 0.0 <= r < 1.0
    ensures Step(c, s, h, r) == Done(Sampled, Step(c, s, h, r).next)
  {
    if s.zeroCount - 1 >= 1 {
      Saturation(c, s, h, r);
    }
  }

  /** The call that fills the last real bucket divides by a zero count; the
      model takes Java's `double` outcome for it: the item is sampled exactly
      when `realSize * p` is positive. The count reaches 0 on no other call. */
  lemma LastBucketDividesByZero(c: Config, s: State, h: int, r: real)
    requires c.WellFormed() && Inv(c, s)
    requires Step(c, s, h, r).Done?
    ensures Step(c, s, h, r).next.zeroCount == 0 && s.zeroCount != 0 <==> s.zeroCount == 1 && FirstHit(s, h)
    ensures s.zeroCount == 1 && FirstHit(s, h) ==>
              && (forall i :: 0 <= i < c.realSize ==> Step(c, s, h, r).next.bitmap[i])
              && (Step(c, s, h, r).decision == Sampled <==> c.Weight() > 0.0)
  {
  }

  /** A filter with a single real bucket: its first hit empties the count and is
      sampled for any draw; a second hit is a duplicate. */
  lemma SingleBucketScenario(r1: real, r2: real)
    ensures var c := Config(1, 2, 0.5);
            && Step(c, Init(c), 0, r1) == Done(Sampled, State([true], 0))
            && Step(c, State([true], 0), 0, r2) == Done(NotSampled, State([true], 0))
  {
    var c := Config(1, 2, 0.5);
    assert Init(c).bitmap == [false];
    assert Init(c).bitmap[0 := true] == [true];
  }

  /** After a completed run, every bucket of the real part that the run hit
      is set, so any later item landing there is suppressed as a duplicate. */
  lemma {:induction false} RunSetsHitBuckets(c: Config, s: State, hs: seq<int>, rs: seq<real>, k: int)
    requires c.WellFormed() && Inv(c, s) && |hs| == |rs|
    requires 0 <= k < |hs| && hs[k] < c.realSize
    ensures Run(c, s, hs, rs).Completed? ==> 0 <= hs[k] && Run(c, s, hs, rs).final.bitmap[hs[k]]
    decreases |hs|
  {
    var o := Step(c, s, hs[0], rs[0]);
    if o.Done? {
      if k == 0 {
        assert o.next.bitmap[hs[0]];
      } else {
        assert hs[1..][k - 1] == hs[k];
        RunSetsHitBuckets(c, o.next, hs[1..], rs[1..], k - 1);
      }
    }
  }

  /** The converse: a bit set after a completed run was set before it or was
      hit by it, so the bitmap records exactly the buckets that received a
      first-time hit. */
  lemma {:induction false} RunSetsOnlyHitBuckets(c: Config, s: State, hs: seq<int>, rs: seq<real>, i: int)
    requires c.WellFormed() && Inv(c, s) && |hs| == |rs|
    requires 0 <= i < |s.bitmap|
    ensures var res := Run(c, s, hs, rs);
            res.Completed? && res.final.bitmap[i] ==> s.bitmap[i] || i in hs
    decreases |hs|
  {
    if |hs| > 0 {
      var o := Step(c, s, hs[0], rs[0]);
      if o.Done? {
        RunSetsOnlyHitBuckets(c, o.next, hs[1..], rs[1..], i);
        assert i in hs[1..] ==> i in hs;
      }
    }
  }

  /** Duplicate suppression across calls: once a run has hit a real bucket,
      a later call on that bucket is not sampled and changes nothing. */
  lemma DuplicateSuppressedAfterRun(c: Config, s: State, hs: seq<int>, rs: seq<real>, k: int, r: real)
    requires c.WellFormed() && Inv(c, s) && |hs| == |rs|
    requires 0 <= k < |hs| && hs[k] < c.realSize
    ensures var res := Run(c, s, hs, rs);
            res.Completed? ==> Step(c, res.final, hs[k], r) == Done(NotSampled, res.final)
  {
    RunSetsHitBuckets(c, s, hs, rs, k);
  }

  /** A run of a new filter samples at most `realSize` items in all. */
  lemma RunFromInitSamplesAtMostRealSize(c: Config, hs: seq<int>, rs: seq<real>)
    requires c.WellFormed() && |hs| == |rs|
    ensures var res := Run(c, Init(c), hs, rs);
            res.Completed? ==> CountSampled(res.decisions) <= c.realSize
  {
  }

  /** Items are compared by their joined key only: a second item whose key
      equals the first's is never sampled and changes nothing, whether the
      first landed in the virtual part, was a duplicate or set its bit. */
  lemma EqualKeysSuppressed(c: Config, s: State, hashCode: string -> Int32,
                            s1: string, d1: string, s2: string, d2: string, r1: real, r2: real)
    requires c.WellFormed() && Inv(c, s)
    requires ItemKey(s1, d1) == ItemKey(s2, d2)
    ensures var first := ProcessItem(c, s, hashCode, s1, d1, r1);
            first.Done? ==> ProcessItem(c, first.next, hashCode, s2, d2, r2) == Done(NotSampled, first.next)
  {
  }

  /** The verdict strings `processItem` returns name the decision uniquely. */
  lemma TextIdentifiesDecision(d: Decision)
    ensures d.Text() == "Sampled" <==> d == Sampled
    ensures d.Text() == "Not Sampled" <==> d == NotSampled
  {
  }

  /** The comma is not escaped, so distinct pairs can share a key. */
  lemma CommaPairsCollide()
    ensures ItemKey("a,b", "c") == ItemKey("a", "b,c")
  {
  }

  /** A quotient whose numerator is at least its positive denominator is at least 1. */
  lemma QuotientAtLeastOne(w: real, z: real)
    requires z > 0.0 && w >= z
    ensures w / z >= 1.0
  {
    var q := w / z;
    assert q * z == w;
    assert (q - 1.0) * z == w - z;
  }
}
