/** The real part of the filter's bitmap and the number of its unset entries. */
module Bitmap {

  /** The number of `false` entries of `b`. */
  function CountZeros(b: seq<bool>): (n: nat)
    ensures n <= |b|
    ensures n == 0 <==> forall i :: 0 <= i < |b| ==> b[i]
    ensures n == |b| <==> forall i :: 0 <= i < |b| ==> !b[i]
  {
    if |b| == 0 then 0
    else
      assert forall i :: 1 <= i < |b| ==> b[1..][i - 1] == b[i];
      (if b[0] then 0 else 1) + CountZeros(b[1..])
  }

  /** A freshly allocated `boolean[n]` holds `n` zeros. */
  function AllUnset(n: nat): (b: seq<bool>)
    ensures |b| == n
    ensures CountZeros(b) == n
    ensures forall i :: 0 <= i < n ==> !b[i]
  {
    seq(n, _ => false)
  }

  /** Setting an unset entry removes exactly one zero. */
  lemma {:induction false} SetRemovesOneZero(b: seq<bool>, i: int)
    requires 0 <= i < |b| && !b[i]
    ensures CountZeros(b[i := true]) == CountZeros(b) - 1
  {
    if i == 0 {
      assert b[i := true][1..] == b[1..];
    } else {
      assert b[i := true][1..] == b[1..][i - 1 := true];
      SetRemovesOneZero(b[1..], i - 1);
    }
  }
}
