/** Cutting bytes into blocks, as the senders of b2f.py, rfsend.py and gateway.py do. */
module Blocks {
  import opened Prelude

  function Min(a: nat, b: nat): nat {
    if a < b then a else b
  }

  /** The data in blocks of `k` bytes, the last one possibly shorter. */
  function BlocksOf(data: bytes, k: nat): (r: seq<bytes>)
    requires k > 0
    decreases |data|
  {
    if |data| == 0 then [] else [data[..Min(k, |data|)]] + BlocksOf(data[Min(k, |data|)..], k)
  }

  lemma BlocksEnd(data: bytes, k: nat)
    requires k > 0
    ensures |data| == 0 ==> BlocksOf(data, k) == []
    ensures data[0..] == data
  {
  }

  lemma NextBlock(data: bytes, k: nat, i: nat)
    requires k > 0 && i < |data|
    ensures var chunk := data[i..Min(i + k, |data|)];
      && 0 < |chunk| <= k
      && i + |chunk| <= |data|
      && BlocksOf(data[i..], k) == [chunk] + BlocksOf(data[i + |chunk|..], k)
  {
    var chunk := data[i..Min(i + k, |data|)];
    assert data[i..][..Min(k, |data[i..]|)] == chunk;
    assert data[i..][|chunk|..] == data[i + |chunk|..];
  }

  /** Block `i` begins at byte `i * k`, and all but the last are `k` bytes long. */
  lemma {:induction false} BlockAt(data: bytes, k: nat, i: nat)
    requires k > 0
    ensures i < |BlocksOf(data, k)| <==> i * k < |data|
    ensures i < |BlocksOf(data, k)| ==> BlocksOf(data, k)[i] == data[i * k..Min(i * k + k, |data|)]
    decreases |data|
  {
    if |data| > 0 && i > 0 {
      var n := Min(k, |data|);
      BlockAt(data[n..], k, i - 1);
      assert i * k == (i - 1) * k + k;
      if i - 1 < |BlocksOf(data[n..], k)| {
        assert data[n..][(i - 1) * k..Min((i - 1) * k + k, |data| - n)] == data[i * k..Min(i * k + k, |data|)];
      }
    }
  }

  lemma {:induction false} BlocksSmall(data: bytes, k: nat)
    requires k > 0
    ensures forall c | c in BlocksOf(data, k) :: 0 < |c| <= k
    decreases |data|
  {
    if |data| > 0 {
      BlocksSmall(data[Min(k, |data|)..], k);
    }
  }

  lemma {:induction false} FlattenConcat(a: seq<bytes>, b: seq<bytes>)
    ensures Flatten(a + b) == Flatten(a) + Flatten(b)
    decreases |b|
  {
    if |b| == 0 {
      assert a + b == a;
    } else {
      var n := |b| - 1;
      assert (a + b)[..|a + b| - 1] == a + b[..n];
      FlattenConcat(a, b[..n]);
      assert Flatten(a) + Flatten(b[..n]) + b[n] == Flatten(a) + (Flatten(b[..n]) + b[n]);
    }
  }

  lemma {:induction false} FlattenPrefix(cs: seq<bytes>, n: nat)
    requires n <= |cs|
    ensures Flatten(cs[..n]) <= Flatten(cs)
    decreases |cs|
  {
    if n == |cs| {
      assert cs[..n] == cs;
    } else {
      assert cs[..|cs| - 1][..n] == cs[..n];
      FlattenPrefix(cs[..|cs| - 1], n);
    }
  }

  lemma FlattenOne(c: bytes)
    ensures Flatten([c]) == c
  {
    assert [c][..0] == [];
  }

  /** Cutting into blocks loses nothing. */
  lemma {:induction false} FlattenBlocks(data: bytes, k: nat)
    requires k > 0
    ensures Flatten(BlocksOf(data, k)) == data
    decreases |data|
  {
    if |data| > 0 {
      var n := Min(k, |data|);
      FlattenBlocks(data[n..], k);
      FlattenConcat([data[..n]], BlocksOf(data[n..], k));
      FlattenOne(data[..n]);
      assert data[..n] + data[n..] == data;
    }
  }
}
