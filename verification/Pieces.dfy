/** How content is cut into pieces of equal length, the last one possibly shorter. */
module Pieces {
  import opened Arith
  import opened Bytes

  function Min(a: int, b: int): int {
    if a < b then a else b
  }

  /** The pieces of `data`, in order. */
  function Cut(data: bytes, n: nat): (r: seq<bytes>)
    requires 0 < n
  {
    if data == [] then [] else if |data| <= n then [data] else [data[..n]] + Cut(data[n..], n)
  }

  /** Nothing is lost or reordered. */
  lemma {:induction false} FlattenCut(data: bytes, n: nat)
    requires 0 < n
    ensures Flatten(Cut(data, n)) == data
  {
    if |data| > n {
      FlattenCut(data[n..], n);
      assert Cut(data, n)[1..] == Cut(data[n..], n);
      assert data[..n] + data[n..] == data;
    } else if data != [] {
      assert Flatten([data]) == data;
    }
  }

  /** A cut at a multiple of the piece length separates the pieces. */
  lemma {:induction false} CutAppend(a: bytes, b: bytes, n: nat, k: nat)
    requires 0 < n && |a| == k * n
    ensures Cut(a + b, n) == Cut(a, n) + Cut(b, n)
    decreases k
  {
    if k == 0 {
      assert a + b == b;
    } else {
      assert k * n == (k - 1) * n + n;
      var a' := a[n..];
      CutAppend(a', b, n, k - 1);
      assert (a + b)[..n] == a[..n] && (a + b)[n..] == a' + b;
      if a' == [] {
        assert a[..n] == a;
        assert a' + b == b;
      } else {
        assert Cut(a, n) == [a[..n]] + Cut(a', n);
      }
      if b == [] {
        assert a + b == a;
      }
    }
  }

  lemma CutOne(a: bytes, n: nat)
    requires 0 < n && |a| == n
    ensures Cut(a, n) == [a]
  {
  }

  lemma CutHead(a: bytes, n: nat)
    requires 0 < n <= |a|
    ensures Cut(a, n) == [a[..n]] + Cut(a[n..], n)
  {
    if |a| == n {
      assert a[..n] == a && a[n..] == [];
    }
  }

  /** Math.ceil(len / n) */
  function Count(len: nat, n: nat): nat
    requires 0 < n
  {
    (len + n - 1) / n
  }

  lemma CountSmall(len: nat, n: nat)
    requires 0 < n && len <= n
    ensures Count(len, n) == if len == 0 then 0 else 1
  {
    DivIs(len + n - 1, n, if len == 0 then 0 else 1);
  }

  lemma CountStep(len: nat, n: nat)
    requires 0 < n
    ensures Count(len + n, n) == Count(len, n) + 1
  {
    var q := Count(len, n);
    DivBounds(len + n - 1, n);
    assert (q + 1) * n == q * n + n;
    DivIs(len + n + n - 1, n, q + 1);
  }

  /** The number of pieces is the length divided by the piece length, rounded up. */
  lemma {:induction false} CutCount(data: bytes, n: nat)
    requires 0 < n
    ensures |Cut(data, n)| == Count(|data|, n)
  {
    hide Count;
    if |data| > n {
      CutCount(data[n..], n);
      CountStep(|data[n..]|, n);
    } else {
      CountSmall(|data|, n);
    }
  }

  /** Piece `i` is the bytes from `i * n` to the next multiple or the end. */
  lemma {:induction false} CutAt(data: bytes, n: nat, i: nat)
    requires 0 < n && i < |Cut(data, n)|
    ensures 0 <= i * n < |data| && i * n <= Min(i * n + n, |data|)
    ensures Cut(data, n)[i] == data[i * n..Min(i * n + n, |data|)]
    decreases i
  {
    if i == 0 {
      assert 0 * n == 0;
    } else {
      CutAt(data[n..], n, i - 1);
      assert (i - 1) * n == i * n - n;
      assert Cut(data, n)[i] == Cut(data[n..], n)[i - 1];
    }
  }
}
