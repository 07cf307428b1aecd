/** Byte strings and the few sequence facts that every component of the engine rests on. */
module Bytes {
  type byte = x: int | 0 <= x < 256

  type bytes = seq<byte>

  datatype Option<+T> = None | Some(value: T)

  datatype Result<+T, +E> = Ok(value: T) | Err(error: E)

  /** Buffer.concat: the parts one after the other. */
  function Flatten<T>(parts: seq<seq<T>>): (r: seq<T>) {
    if parts == [] then [] else parts[0] + Flatten(parts[1..])
  }

  lemma {:induction false} FlattenAppend<T>(a: seq<seq<T>>, b: seq<seq<T>>)
    ensures Flatten(a + b) == Flatten(a) + Flatten(b)
  {
    if a == [] {
      assert a + b == b;
    } else {
      assert (a + b)[1..] == a[1..] + b;
      FlattenAppend(a[1..], b);
      assert a[0] + (Flatten(a[1..]) + Flatten(b)) == (a[0] + Flatten(a[1..])) + Flatten(b);
    }
  }

  lemma FlattenSnoc<T>(a: seq<seq<T>>, x: seq<T>)
    ensures Flatten(a + [x]) == Flatten(a) + x
  {
    FlattenAppend(a, [x]);
    assert Flatten([x]) == x;
  }

  function ZeroBytes(n: nat): bytes {
    seq(n, _ => 0)
  }

  /** Cut off, or filled up with zeros: truncate(n) of a file, Buffer.concat with a total length of n. */
  function Resize(s: bytes, n: nat): (r: bytes)
    ensures |r| == n
  {
    if |s| >= n then s[..n] else s + ZeroBytes(n - |s|)
  }

  /** Buffer.indexOf(c, from): the first occurrence at or after `from`, or the length if there is none. */
  function IndexOf(s: bytes, from: nat, c: byte): (r: nat)
    requires from <= |s|
    ensures from <= r <= |s|
    ensures r < |s| ==> s[r] == c
    ensures forall i :: from <= i < r ==> s[i] != c
    decreases |s| - from
  {
    if from == |s| || s[from] == c then from else IndexOf(s, from + 1, c)
  }

  /** The bytes of an ASCII text. */
  function Text(s: string): (r: bytes)
    ensures |r| == |s|
  {
    seq(|s|, i requires 0 <= i < |s| => if s[i] < 128 as char then s[i] as int else 0x3f)
  }
}
