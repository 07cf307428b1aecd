/** Numbers and byte strings as runs of bits, most significant bit first. */
module Bits {
  import opened Arith
  import opened Bytes

  type bit = b: int | 0 <= b < 2

  type bits = seq<bit>

  /** The low `w` bits of `v`, most significant first: (v >> j) & 1 for j from w - 1 down to 0. */
  function BitsOf(v: nat, w: nat): (r: bits)
    ensures |r| == w
  {
    if w == 0 then [] else BitsOf(v / 2, w - 1) + [v % 2]
  }

  /** The number a run of bits stands for: val = (val << 1) | bit. */
  function ValueOf(bs: bits): nat {
    if bs == [] then 0 else 2 * ValueOf(bs[..|bs| - 1]) + bs[|bs| - 1]
  }

  function Power2(n: nat): (r: nat)
    ensures 0 < r
  {
    if n == 0 then 1 else 2 * Power2(n - 1)
  }

  lemma {:induction false} ValueBelow(bs: bits)
    ensures ValueOf(bs) < Power2(|bs|)
  {
    if bs != [] {
      ValueBelow(bs[..|bs| - 1]);
    }
  }

  lemma {:induction false} BitsOfValue(bs: bits)
    ensures BitsOf(ValueOf(bs), |bs|) == bs
  {
    if bs != [] {
      BitsOfValue(bs[..|bs| - 1]);
    }
  }

  lemma {:induction false} ValueOfBits(v: nat, w: nat)
    requires v < Power2(w)
    ensures ValueOf(BitsOf(v, w)) == v
  {
    if w > 0 {
      ValueOfBits(v / 2, w - 1);
      assert BitsOf(v, w)[..w - 1] == BitsOf(v / 2, w - 1);
    }
  }

  function Zeros(n: nat): (r: bits)
    ensures |r| == n
  {
    seq(n, _ => 0)
  }

  /** The bits of a byte string. */
  function ByteBits(s: bytes): (r: bits)
    ensures |r| == 8 * |s|
  {
    if s == [] then [] else BitsOf(s[0], 8) + ByteBits(s[1..])
  }

  lemma DivTwice(v: nat, p: nat)
    requires 0 < p
    ensures v / (2 * p) == v / 2 / p
  {
    var h := v / 2;
    var q := h / p;
    DivBounds(h, p);
    assert q * (2 * p) == 2 * (q * p);
    DivIs(v, 2 * p, q);
  }

  /** Bit `t` is (v >> (w - 1 - t)) & 1. */
  lemma {:induction false} BitAt(v: nat, w: nat, t: nat)
    requires t < w
    ensures BitsOf(v, w)[t] == v / Power2(w - 1 - t) % 2
  {
    if t < w - 1 {
      BitAt(v / 2, w - 1, t);
      DivTwice(v, Power2(w - 2 - t));
    }
  }

  lemma {:induction false} ValueAppend(a: bits, b: bits)
    ensures ValueOf(a + b) == ValueOf(a) * Power2(|b|) + ValueOf(b)
  {
    if b == [] {
      assert a + b == a;
    } else {
      var front, last := b[..|b| - 1], b[|b| - 1];
      ValueAppend(a, front);
      PowerStep(|front|);
      hide ValueOf, Power2;
      ValueSnoc(a + front, last);
      ValueSnoc(front, last);
      assert a + b == (a + front) + [last] && b == front + [last];
      Doubled(ValueOf(a), Power2(|front|));
    }
  }

  lemma ValueSnoc(bs: bits, b: bit)
    ensures ValueOf(bs + [b]) == 2 * ValueOf(bs) + b
  {
    assert (bs + [b])[..|bs|] == bs;
  }

  lemma PowerStep(n: nat)
    ensures Power2(n + 1) == 2 * Power2(n)
  {
  }

  lemma Doubled(x: nat, p: nat)
    ensures x * (2 * p) == 2 * (x * p)
  {
  }

  lemma {:induction false} ByteBitsAppend(a: bytes, b: bytes)
    ensures ByteBits(a + b) == ByteBits(a) + ByteBits(b)
  {
    if a == [] {
      assert a + b == b;
    } else {
      hide BitsOf;
      ByteBitsAppend(a[1..], b);
      assert (a + b)[1..] == a[1..] + b;
      assert BitsOf(a[0], 8) + (ByteBits(a[1..]) + ByteBits(b)) == (BitsOf(a[0], 8) + ByteBits(a[1..])) + ByteBits(b);
    }
  }

  /** Bit `i` of a byte string is bit i % 8 of byte i / 8. */
  lemma {:induction false} ByteBitAt(s: bytes, i: nat)
    requires i < 8 * |s|
    ensures ByteBits(s)[i] == BitsOf(s[i / 8], 8)[i % 8]
  {
    if i >= 8 {
      ByteBitAt(s[1..], i - 8);
      assert s[1..][(i - 8) / 8] == s[i / 8];
    }
  }

  lemma {:induction false} ByteBitsInjective(s: bytes, t: bytes)
    requires ByteBits(s) == ByteBits(t)
    ensures s == t
  {
    assert |s| == |t|;
    if s != [] {
      Power2Eight();
      assert BitsOf(s[0], 8) == ByteBits(s)[..8] == BitsOf(t[0], 8);
      assert ByteBits(s[1..]) == ByteBits(s)[8..] == ByteBits(t[1..]);
      ValueOfBits(s[0], 8);
      ValueOfBits(t[0], 8);
      ByteBitsInjective(s[1..], t[1..]);
      assert s == [s[0]] + s[1..] && t == [t[0]] + t[1..];
    }
  }

  lemma Power2Eight()
    ensures Power2(8) == 256
  {
    assert Power2(2) == 4;
    assert Power2(4) == 16;
    assert Power2(6) == 64;
  }
}
