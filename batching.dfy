/** Fixed-size batching, as the scripts write it:
    `for i in range(0, len(xs), n): batch = xs[i:i + n]`. */
module Batching {

  function Min(a: int, b: int): int {
    if a <= b then a else b
  }

  /** Concatenation of a sequence of sequences. */
  function Flatten<T>(ss: seq<seq<T>>): seq<T> {
    if |ss| == 0 then [] else ss[0] + Flatten(ss[1..])
  }

  lemma {:induction false} FlattenConcat<T>(a: seq<seq<T>>, b: seq<seq<T>>)
    ensures Flatten(a + b) == Flatten(a) + Flatten(b)
    decreases |a|
  {
    if |a| == 0 {
      assert a + b == b;
    } else {
      assert (a + b)[1..] == a[1..] + b;
      FlattenConcat(a[1..], b);
    }
  }

  lemma SeqAssoc<T>(a: seq<T>, b: seq<T>, c: seq<T>)
    ensures a + b + c == a + (b + c)
  {
  }

  /** The batches `xs[0:n], xs[n:2n], ...`: each non-empty, each of size `n`
      except possibly the last, and together the whole of `s`, in order. */
  function Chunks<T>(s: seq<T>, n: nat): (r: seq<seq<T>>)
    requires n > 0
    ensures forall i | 0 <= i < |r| :: 0 < |r[i]| <= n
    ensures forall i | 0 <= i < |r| - 1 :: |r[i]| == n
    ensures Flatten(r) == s
    decreases |s|
  {
    if |s| == 0 then []
    else
      var m := Min(n, |s|);
      var rest := Chunks(s[m..], n);
      assert s == s[..m] + s[m..];
      assert ([s[..m]] + rest)[1..] == rest;
      [s[..m]] + rest
  }

  /** One step of the batching loop: from offset `i`, the next batch is
      `s[i:i + n]` and the rest starts at `i + n`. */
  lemma ChunksUnfold<T>(s: seq<T>, n: nat, i: nat)
    requires n > 0 && i < |s|
    ensures Chunks(s[i..], n) == [s[i..Min(i + n, |s|)]] + Chunks(s[Min(i + n, |s|)..], n)
  {
    assert s[i..][..Min(n, |s| - i)] == s[i..Min(i + n, |s|)];
    assert s[i..][Min(n, |s| - i)..] == s[Min(i + n, |s|)..];
  }

  /** The batches of `s` from position `i` on, as the batching loop takes
      them: a step of `n` at a time. */
  function ChunksFrom<T>(s: seq<T>, n: nat, i: nat): seq<seq<T>>
    requires n > 0
    decreases |s| - i
  {
    if i >= |s| then [] else [s[i..Min(i + n, |s|)]] + ChunksFrom(s, n, Min(i + n, |s|))
  }

  /** The loop's batches from `i` on are the batches of `s[i..]`. */
  lemma {:induction false} ChunksFromIsChunks<T>(s: seq<T>, n: nat, i: nat)
    requires n > 0 && i <= |s|
    ensures ChunksFrom(s, n, i) == Chunks(s[i..], n)
    decreases |s| - i
  {
    if i < |s| {
      ChunksUnfold(s, n, i);
      ChunksFromIsChunks(s, n, Min(i + n, |s|));
    }
  }

  /** `k * n` by repeated addition, which keeps the batch offsets linear. */
  function Offset(k: nat, n: nat): nat {
    if k == 0 then 0 else Offset(k - 1, n) + n
  }

  lemma {:induction false} OffsetIsProduct(k: nat, n: nat)
    ensures Offset(k, n) == k * n
  {
    if k > 0 {
      OffsetIsProduct(k - 1, n);
      assert (k - 1) * n + n == k * n;
    }
  }

  /** A full first batch, or a single batch when it cannot be full. */
  lemma ChunksFirst<T>(s: seq<T>, n: nat)
    requires n > 0
    ensures |s| > n ==> Chunks(s, n) == [s[..n]] + Chunks(s[n..], n)
    ensures |s| <= n ==> |Chunks(s, n)| <= 1
    ensures |s| == 0 <==> |Chunks(s, n)| == 0
  {
    if 0 < |s| <= n {
      assert s[|s|..] == [];
    }
  }

  /** Past the first batch, the batches are those of the rest. */
  lemma ChunksTail<T>(s: seq<T>, n: nat, k: nat)
    requires n > 0 && 0 < k < |Chunks(s, n)|
    ensures |s| > n && k - 1 < |Chunks(s[n..], n)|
    ensures Chunks(s, n)[k..] == Chunks(s[n..], n)[k - 1..]
  {
    ChunksFirst(s, n);
  }

  lemma SliceTwice<T>(s: seq<T>, i: nat, j: nat)
    requires i + j <= |s|
    ensures s[i..][j..] == s[i + j..]
  {
  }

  /** Dropping `k` batches drops `k * n` elements. */
  lemma {:induction false} ChunksDrop<T>(s: seq<T>, n: nat, k: nat)
    requires n > 0 && k < |Chunks(s, n)|
    ensures Offset(k, n) < |s|
    ensures Chunks(s, n)[k..] == Chunks(s[Offset(k, n)..], n)
    decreases k
  {
    if k > 0 {
      ChunksTail(s, n, k);
      var t := s[n..];
      var d := Offset(k - 1, n);
      ChunksDrop(t, n, k - 1);
      assert Offset(k, n) == n + d;
      SliceTwice(s, n, d);
      assert t[d..] == s[Offset(k, n)..];
      assert Chunks(s, n)[k..] == Chunks(t[d..], n);
    } else {
      ChunksFirst(s, n);
      assert s[0..] == s;
    }
  }

  /** The k-th batch is the Python slice `s[k*n:(k+1)*n]`. */
  lemma ChunkAt<T>(s: seq<T>, n: nat, k: nat)
    requires n > 0 && k < |Chunks(s, n)|
    ensures k * n < |s|
    ensures Chunks(s, n)[k] == s[k * n..Min(k * n + n, |s|)]
  {
    ChunkAtOffset(s, n, k);
    OffsetIsProduct(k, n);
  }

  lemma ChunkAtOffset<T>(s: seq<T>, n: nat, k: nat)
    requires n > 0 && k < |Chunks(s, n)|
    ensures Offset(k, n) < |s|
    ensures Chunks(s, n)[k] == s[Offset(k, n)..Min(Offset(k, n) + n, |s|)]
  {
    ChunksDrop(s, n, k);
    var o := Offset(k, n);
    var d := Chunks(s, n)[k..];
    ChunksUnfold(s, n, o);
    assert d[0] == s[o..Min(o + n, |s|)];
  }

  lemma MulStep(k: nat, n: nat)
    requires k > 0
    ensures (k - 1) * n + n == k * n
  {
  }

  /** The number of batches is `ceil(len(s) / n)`: the last one starts
      before the end and the batches reach it. */
  lemma {:induction false} ChunksCount<T>(s: seq<T>, n: nat)
    requires n > 0
    ensures (|Chunks(s, n)| - 1) * n < |s| <= |Chunks(s, n)| * n
    decreases |s|
  {
    if |s| > 0 {
      var m := Min(n, |s|);
      var c := |Chunks(s[m..], n)|;
      ChunksCount(s[m..], n);
      assert |Chunks(s, n)| == 1 + c;
      if |s| > n {
        assert (c - 1) * n < |s| - n <= c * n;
        assert c > 0;
        MulStep(c, n);
        MulStep(c + 1, n);
      }
    }
  }
}
