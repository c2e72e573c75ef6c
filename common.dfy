/** Small helpers shared by the audio modules: an optional value and byte runs. */
module Common {

  /** The conventional optional value, standing in for a nullable pointer. */
  datatype Option<+T> = None | Some(value: T)

  /** The smaller of two counts. */
  function Min(a: nat, b: nat): (m: nat)
    ensures m <= a && m <= b
    ensures m == a || m == b
  {
    if a > b then b else a
  }

  /** `n` bytes of silence: signed 16-bit PCM is silent at byte value zero. */
  function Zeros(n: nat): (z: seq<bv8>)
  {
    seq(n, _ => 0 as bv8)
  }

  /** Every byte of `s` is zero. */
  predicate Silent(s: seq<bv8>)
  {
    forall i :: 0 <= i < |s| ==> s[i] == 0
  }

  lemma {:induction false} ZerosSplit(a: nat, b: nat)
    ensures Zeros(a + b) == Zeros(a) + Zeros(b)
    ensures |Zeros(a)| == a && Silent(Zeros(a))
  {
    assert |Zeros(a + b)| == |Zeros(a) + Zeros(b)|;
    forall i | 0 <= i < a + b
      ensures Zeros(a + b)[i] == (Zeros(a) + Zeros(b))[i]
    {
    }
  }
}
