/** Values shared by every module: bytes, bits, options and sums over sequences. */
module Prelude {

  type byte = b: int | 0 <= b < 256
  type bit = b: int | 0 <= b < 2
  type bytes = seq<byte>
  type bits = seq<bit>

  // The LZSS parameters of lzhuf.py.
  const N: nat := 2048           // ring buffer size
  const F: nat := 60             // upper limit for the match length
  const THRESHOLD: nat := 2      // shorter matches are written as literals

  datatype Option<+V> = None | Some(value: V)

  /** The sum of the first `n` elements. */
  function Sum(s: seq<int>, n: nat): int
    requires n <= |s|
  {
    if n == 0 then 0 else Sum(s, n - 1) + s[n - 1]
  }

  lemma {:induction false} SumSame(s: seq<int>, t: seq<int>, n: nat)
    requires n <= |s| && n <= |t|
    requires forall x: nat | x < n :: s[x] == t[x]
    ensures Sum(s, n) == Sum(t, n)
  {
    if n > 0 {
      SumSame(s, t, n - 1);
    }
  }

  lemma {:induction false} SumUpdate(s: seq<int>, i: nat, v: int, n: nat)
    requires i < n <= |s|
    ensures Sum(s[i := v], n) == Sum(s, n) - s[i] + v
  {
    if i == n - 1 {
      SumSame(s[i := v], s, n - 1);
    } else {
      SumUpdate(s, i, v, n - 1);
    }
  }

  /** `s` with `v` put in at index `k`. */
  function Splice<V>(s: seq<V>, k: nat, v: V): (r: seq<V>)
    requires k <= |s|
    ensures |r| == |s| + 1 && r[k] == v
    ensures forall x: nat | x < k :: r[x] == s[x]
    ensures forall x: nat | k < x < |r| :: r[x] == s[x - 1]
  {
    s[..k] + [v] + s[k..]
  }

  lemma {:induction false} SumSplice(s: seq<int>, k: nat, v: int, n: nat)
    requires k <= n <= |s|
    ensures Sum(Splice(s, k, v), n + 1) == Sum(s, n) + v
    ensures Sum(Splice(s, k, v), k) == Sum(s, k)
  {
    hide Splice;
    if n == k {
      SumSame(Splice(s, k, v), s, k);
    } else {
      SumSplice(s, k, v, n - 1);
    }
  }

  /** Sequences one after the other. */
  function Flatten<T>(cs: seq<seq<T>>): seq<T> {
    if |cs| == 0 then [] else Flatten(cs[..|cs| - 1]) + cs[|cs| - 1]
  }

  /** The bit at index `n` of a stream that continues with zero bits for ever. */
  function At(s: bits, n: nat): bit {
    if n < |s| then s[n] else 0
  }
}
