/** Node ids and the XOR metric: distance, bucket index, order of distances, random ids for a bucket. */
module Kademlia {
  import opened Arith
  import opened Bits
  import opened Bytes

  type Id = s: bytes | |s| == 20 witness seq(20, _ => 0)

  // ---------------------------------------------------------------- exclusive or

  function XorBits(a: bits, b: bits): (r: bits)
    requires |a| == |b|
    ensures |r| == |a|
  {
    seq(|a|, i requires 0 <= i < |a| => if a[i] == b[i] then 0 else 1)
  }

  /** a ^ b on bytes, bit by bit. */
  function XorByte(a: byte, b: byte): byte {
    var x := XorBits(BitsOf(a, 8), BitsOf(b, 8));
    ValueBelow(x);
    Power2Eight();
    ValueOf(x)
  }

  function Xor(a: bytes, b: bytes): (r: bytes)
    requires |a| == |b|
    ensures |r| == |a|
  {
    seq(|a|, i requires 0 <= i < |a| => XorByte(a[i], b[i]))
  }

  function Distance(a: Id, b: Id): Id {
    Xor(a, b)
  }

  lemma {:induction false} XorIsBitwise(a: bytes, b: bytes)
    requires |a| == |b|
    ensures ByteBits(Xor(a, b)) == XorBits(ByteBits(a), ByteBits(b))
  {
    if a != [] {
      XorIsBitwise(a[1..], b[1..]);
      assert Xor(a, b)[1..] == Xor(a[1..], b[1..]);
      BitsOfValue(XorBits(BitsOf(a[0], 8), BitsOf(b[0], 8)));
    }
  }

  // ---------------------------------------------------------------- distances as numbers

  /** The big-endian number a byte string stands for. */
  function Number(s: bytes): nat {
    if s == [] then 0 else Number(s[..|s| - 1]) * 256 + s[|s| - 1]
  }

  lemma {:induction false} NumberIsValue(s: bytes)
    ensures Number(s) == ValueOf(ByteBits(s))
  {
    if s != [] {
      var front, last := s[..|s| - 1], s[|s| - 1];
      NumberIsValue(front);
      assert s == front + [last];
      ByteBitsAppend(front, [last]);
      assert ByteBits([last]) == BitsOf(last, 8) + [] == BitsOf(last, 8);
      Power2Eight();
      ValueOfBits(last, 8);
      ValueAppend(ByteBits(front), BitsOf(last, 8));
    }
  }

  /** Buffer.compare on byte strings of equal length: the first difference decides. */
  function Compare(a: bytes, b: bytes): int
    requires |a| == |b|
  {
    if a == [] then 0
    else if a[0] < b[0] then -1
    else if a[0] > b[0] then 1
    else Compare(a[1..], b[1..])
  }

  lemma NumberHead(s: bytes)
    requires s != []
    ensures Number(s) == s[0] * Power2(8 * (|s| - 1)) + Number(s[1..])
    ensures Number(s[1..]) < Power2(8 * (|s| - 1))
  {
    NumberIsValue(s);
    NumberIsValue(s[1..]);
    Power2Eight();
    ValueOfBits(s[0], 8);
    ValueAppend(BitsOf(s[0], 8), ByteBits(s[1..]));
    ValueBelow(ByteBits(s[1..]));
  }

  /** The comparison of distances is the comparison of the numbers. */
  lemma {:induction false} CompareIsOrder(a: bytes, b: bytes)
    requires |a| == |b|
    ensures Compare(a, b) < 0 <==> Number(a) < Number(b)
    ensures Compare(a, b) > 0 <==> Number(a) > Number(b)
    ensures Compare(a, b) == 0 <==> a == b
    ensures Number(a) == Number(b) <==> a == b
  {
    if a != [] {
      NumberHead(a);
      NumberHead(b);
      CompareIsOrder(a[1..], b[1..]);
      var p := Power2(8 * (|a| - 1));
      if a[0] < b[0] { MulGap(a[0], b[0], p); }
      if a[0] > b[0] { MulGap(b[0], a[0], p); }
      assert a == [a[0]] + a[1..] && b == [b[0]] + b[1..];
    }
  }

  // ---------------------------------------------------------------- the metric

  lemma XorBitsZero(a: bits, b: bits)
    requires |a| == |b|
    ensures XorBits(a, b) == Zeros(|a|) <==> a == b
  {
    if XorBits(a, b) == Zeros(|a|) {
      forall i | 0 <= i < |a| ensures a[i] == b[i] {
        assert XorBits(a, b)[i] == Zeros(|a|)[i];
      }
    }
  }

  lemma {:induction false} ValueZero(bs: bits)
    ensures ValueOf(bs) == 0 <==> bs == Zeros(|bs|)
  {
    if bs != [] {
      var front := bs[..|bs| - 1];
      ValueZero(front);
      assert Zeros(|bs|) == Zeros(|front|) + [0];
      assert bs == front + [bs[|bs| - 1]];
    }
  }

  /** Only an id itself is at distance zero, and distance is symmetric. */
  lemma DistanceZero(a: Id, b: Id)
    ensures Number(Distance(a, b)) == 0 <==> a == b
    ensures Distance(a, b) == Distance(b, a)
  {
    XorIsBitwise(a, b);
    NumberIsValue(Distance(a, b));
    ValueZero(ByteBits(Distance(a, b)));
    XorBitsZero(ByteBits(a), ByteBits(b));
    if ByteBits(a) == ByteBits(b) { ByteBitsInjective(a, b); }
    forall i | 0 <= i < 20 ensures XorByte(a[i], b[i]) == XorByte(b[i], a[i]) {
      assert XorBits(BitsOf(a[i], 8), BitsOf(b[i], 8)) == XorBits(BitsOf(b[i], 8), BitsOf(a[i], 8));
    }
  }

  lemma {:induction false} ValueSubadditive(u: bits, v: bits, w: bits)
    requires |u| == |v| == |w| && forall i :: 0 <= i < |u| && u[i] == 1 ==> v[i] == 1 || w[i] == 1
    ensures ValueOf(u) <= ValueOf(v) + ValueOf(w)
  {
    if u != [] {
      var n := |u| - 1;
      ValueSubadditive(u[..n], v[..n], w[..n]);
    }
  }

  lemma Triangle(a: Id, b: Id, c: Id)
    ensures Number(Distance(a, c)) <= Number(Distance(a, b)) + Number(Distance(b, c))
  {
    XorIsBitwise(a, b);
    XorIsBitwise(b, c);
    XorIsBitwise(a, c);
    NumberIsValue(Distance(a, b));
    NumberIsValue(Distance(b, c));
    NumberIsValue(Distance(a, c));
    var x, y, z := ByteBits(a), ByteBits(b), ByteBits(c);
    ValueSubadditive(XorBits(x, z), XorBits(x, y), XorBits(y, z));
  }

  /** From a target, a distance is that of one id only. */
  lemma Unidirectional(a: Id, b: Id, target: Id)
    requires Distance(a, target) == Distance(b, target)
    ensures a == b
  {
    XorIsBitwise(a, target);
    XorIsBitwise(b, target);
    var t := ByteBits(target);
    forall i | 0 <= i < |t| ensures ByteBits(a)[i] == ByteBits(b)[i] {
      assert XorBits(ByteBits(a), t)[i] == XorBits(ByteBits(b), t)[i];
    }
    ByteBitsInjective(a, b);
  }

  // ---------------------------------------------------------------- buckets

  /** The bucket of a distance, searched from bit `i` on; all bits zero gives 0. */
  function BucketFrom(d: Id, i: nat): (r: nat)
    requires i <= 160
    ensures r < 160
    decreases 160 - i
  {
    if i == 160 then 0 else if ByteBits(d)[i] == 1 then 159 - i else BucketFrom(d, i + 1)
  }

  function Bucket(own: Id, id: Id): (r: nat)
    ensures r < 160
  {
    BucketFrom(Distance(own, id), 0)
  }

  /** getBucket: the first differing bit, found byte by byte and bit by bit. */
  method GetBucket(own: Id, nodeId: Id) returns (r: nat)
    ensures r == Bucket(own, nodeId)
  {
    hide ByteBits, Power2, BitsOf, Xor;
    var distance := Distance(own, nodeId);
    for i := 0 to 160
      invariant BucketFrom(distance, 0) == BucketFrom(distance, i)
    {
      var byteIndex, bitIndex := i / 8, 7 - i % 8;
      var bit := distance[byteIndex] / Power2(bitIndex) % 2;
      ByteBitAt(distance, i);
      BitAt(distance[byteIndex], 8, i % 8);
      if bit == 1 { return 159 - i; }
    }
    return 0;
  }

  /** The value of bits whose first one stands at `i`. */
  lemma {:induction false} LeadingOne(bs: bits, i: nat)
    requires i < |bs| && bs[i] == 1 && forall j :: 0 <= j < i ==> bs[j] == 0
    ensures Power2(|bs| - 1 - i) <= ValueOf(bs) < Power2(|bs| - i)
  {
    var n := |bs| - 1;
    if i == n {
      ValueZero(bs[..n]);
      assert bs[..n] == Zeros(n);
    } else {
      LeadingOne(bs[..n], i);
    }
  }

  lemma {:induction false} Power2Grows(a: nat, b: nat)
    requires a < b
    ensures 2 * Power2(a) <= Power2(b)
  {
    if a < b - 1 {
      Power2Grows(a, b - 1);
    }
  }

  lemma AllZero(bs: bits)
    requires forall j :: 0 <= j < |bs| ==> bs[j] == 0
    ensures ValueOf(bs) == 0
  {
    ValueZero(bs);
    assert bs == Zeros(|bs|);
  }

  lemma {:induction false} BucketFromIs(d: Id, i: nat)
    requires i <= 160 && forall j :: 0 <= j < i ==> ByteBits(d)[j] == 0
    requires Number(d) != 0
    ensures Power2(BucketFrom(d, i)) <= Number(d) < Power2(BucketFrom(d, i) + 1)
    decreases 160 - i
  {
    NumberIsValue(d);
    var bs := ByteBits(d);
    if i == 160 {
      AllZero(bs);
    } else if bs[i] == 1 {
      LeadingOne(bs, i);
    } else {
      BucketFromIs(d, i + 1);
    }
  }

  /** The bucket of another id is b exactly when its distance, as a number, lies in [2^b, 2^(b+1)). */
  lemma BucketIff(own: Id, id: Id, b: nat)
    requires id != own
    ensures Bucket(own, id) == b <==> Power2(b) <= Number(Distance(own, id)) < Power2(b + 1)
  {
    DistanceZero(own, id);
    BucketFromIs(Distance(own, id), 0);
    var c := Bucket(own, id);
    if c < b { Power2Grows(c, b); }
    if b < c { Power2Grows(b, c); if b + 1 < c { Power2Grows(b + 1, c); } }
  }

  /** An id in a lower bucket is strictly closer, by the comparison the table sorts with. */
  lemma LowerBucketCloser(own: Id, x: Id, y: Id)
    requires x != own && y != own && Bucket(own, x) < Bucket(own, y)
    ensures Compare(Distance(own, x), Distance(own, y)) < 0
  {
    var b, c := Bucket(own, x), Bucket(own, y);
    BucketIff(own, x, b);
    BucketIff(own, y, c);
    if b + 1 < c { Power2Grows(b + 1, c); }
    CompareIsOrder(Distance(own, x), Distance(own, y));
  }

  // ---------------------------------------------------------------- random ids for a bucket

  /** The flipped byte: bits above `k` kept, bit `k` flipped, bits below taken from `low`. */
  function FlippedByte(o: byte, k: nat, low: byte): byte
    requires k < 8
  {
    Masked(XorByte(o, PowerByte(k)), k, low)
  }

  /** (x & ~mask) | (low & mask) with mask = (1 << k) - 1 */
  function Masked(x: byte, k: nat, low: byte): byte
    requires k < 8
  {
    KeepHigh(x, k, low);
    x / Power2(k) * Power2(k) + low % Power2(k)
  }

  lemma MaskedZero(x: byte, low: byte)
    ensures Masked(x, 0, low) == x
  {
  }

  function PowerByte(k: nat): byte
    requires k < 8
  {
    Power2Grows(k, 8);
    Power2Eight();
    Power2(k)
  }

  /** (x & ~mask) | (low & mask), with mask = 2^k - 1, is again a byte. */
  lemma KeepHigh(x: byte, k: nat, low: byte)
    requires k < 8
    ensures 0 <= x / Power2(k) * Power2(k) + low % Power2(k) < 256
    ensures (x / Power2(k) * Power2(k) + low % Power2(k)) / Power2(k) == x / Power2(k)
  {
    Split256(k);
    Replaced(x, Power2(k), Power2(8 - k), low % Power2(k));
  }

  lemma Replaced(x: nat, p: nat, m: nat, low: nat)
    requires 0 < p && x < m * p && low < p
    ensures 0 <= x / p * p + low < m * p && (x / p * p + low) / p == x / p
  {
    var q := x / p;
    DivBounds(x, p);
    MulNat(q, p);
    DivIs(q * p + low, p, q);
    if q >= m {
      MulMono(m, q, p);
    } else {
      MulGap(q, m, p);
    }
  }

  lemma Split256(k: nat)
    requires k <= 8
    ensures Power2(8 - k) * Power2(k) == 256
    decreases 8 - k
  {
    Power2Eight();
    if k < 8 {
      Split256(k + 1);
      var a, b := Power2(8 - k - 1), Power2(k);
      assert (2 * a) * b == a * (2 * b);
    }
  }

  /** The id that _generateRandomIdForBucket makes of the random bytes it draws. */
  function RandomId(own: Id, bucketIndex: nat, fill: Id, low: byte): Id
    requires bucketIndex < 160
  {
    var bitPosition := 159 - bucketIndex;
    FlippedFrom(own, bitPosition / 8, 7 - bitPosition % 8, fill, low)
  }

  /** The own id up to a byte, that byte flipped in bit `bitIndex`, random bytes behind. */
  function FlippedFrom(own: Id, byteIndex: nat, bitIndex: nat, fill: Id, low: byte): Id
    requires byteIndex < 20 && bitIndex < 8
  {
    own[..byteIndex] + [FlippedByte(own[byteIndex], bitIndex, low)] + fill[byteIndex + 1..]
  }

  method GenerateRandomIdForBucket(own: Id, bucketIndex: nat, fill: Id, low: byte) returns (r: Id)
    requires bucketIndex < 160
    ensures r == RandomId(own, bucketIndex, fill, low)
    ensures Bucket(own, r) == bucketIndex
  {
    hide Bucket;
    var id := new byte[20](i requires 0 <= i < 20 => own[i]);
    var bitPosition := 159 - bucketIndex;
    var byteIndex, bitIndex := bitPosition / 8, 7 - bitPosition % 8;
    assert id[..] == own;
    DrawFrom(id, own, byteIndex, bitIndex, fill, low);
    r := id[..];
    RandomIdInBucket(own, bucketIndex, fill, low);
  }

  method DrawFrom(id: array<byte>, ghost own: Id, byteIndex: nat, bitIndex: nat, fill: Id, low: byte)
    requires id.Length == 20 && id[..] == own && byteIndex < 20 && bitIndex < 8
    modifies id
    ensures id[..] == FlippedFrom(own, byteIndex, bitIndex, fill, low)
  {
    hide XorByte, PowerByte, Masked;
    FlipBit(id, byteIndex, bitIndex);
    FillAfter(id, byteIndex + 1, fill);
    MaskedZero(id[byteIndex], low);
    if bitIndex > 0 {
      id[byteIndex] := Masked(id[byteIndex], bitIndex, low);
    }
  }

  method FlipBit(id: array<byte>, byteIndex: nat, bitIndex: nat)
    requires byteIndex < id.Length && bitIndex < 8
    modifies id
    ensures id[..] == old(id[..])[byteIndex := XorByte(old(id[byteIndex]), PowerByte(bitIndex))]
  {
    id[byteIndex] := XorByte(id[byteIndex], PowerByte(bitIndex));
  }

  method FillAfter(id: array<byte>, from: nat, fill: bytes)
    requires from <= id.Length == |fill|
    modifies id
    ensures id[..] == old(id[..])[..from] + fill[from..]
  {
    for i := from to id.Length
      invariant id[..i] == old(id[..])[..from] + fill[from..i]
    {
      id[i] := fill[i];
    }
    assert id[..] == id[..id.Length] && fill[from..] == fill[from..id.Length];
  }

  /** The bits above `k` of a byte are the bits of its quotient by 2^k. */
  lemma {:induction false} HighBits(v: nat, w: nat, k: nat)
    requires k <= w
    ensures BitsOf(v, w)[..w - k] == BitsOf(v / Power2(k), w - k)
  {
    if k > 0 {
      HighBits(v / 2, w - 1, k - 1);
      DivTwice(v, Power2(k - 1));
      assert BitsOf(v, w)[..w - k] == BitsOf(v / 2, w - 1)[..w - k];
    }
  }

  lemma {:induction false} BitsOfZero(w: nat, t: nat)
    requires t < w
    ensures BitsOf(0, w)[t] == 0
  {
    if t < w - 1 {
      BitsOfZero(w - 1, t);
    }
  }

  lemma {:induction false} PowerBit(k: nat, w: nat, t: nat)
    requires k < w && t < w
    ensures BitsOf(Power2(k), w)[t] == if t == w - 1 - k then 1 else 0
  {
    if t < w - 1 {
      if k == 0 {
        BitsOfZero(w - 1, t);
      } else {
        PowerBit(k - 1, w - 1, t);
      }
    }
  }

  /** Against the original byte, the flipped one differs in bit `k` and in no higher bit. */
  lemma FlippedBits(o: byte, k: nat, low: byte, t: nat)
    requires k < 8 && t <= 7 - k
    ensures BitsOf(FlippedByte(o, k, low), 8)[t] == if t == 7 - k then 1 - BitsOf(o, 8)[t] else BitsOf(o, 8)[t]
  {
    var x, v := XorByte(o, PowerByte(k)), FlippedByte(o, k, low);
    KeepHigh(x, k, low);
    HighBits(x, 8, k);
    HighBits(v, 8, k);
    assert BitsOf(v, 8)[t] == BitsOf(v, 8)[..8 - k][t] == BitsOf(x, 8)[..8 - k][t] == BitsOf(x, 8)[t];
    BitsOfValue(XorBits(BitsOf(o, 8), BitsOf(Power2(k), 8)));
    PowerBit(k, 8, t);
  }

  lemma RandomIdBit(own: Id, b: nat, fill: Id, low: byte, j: nat)
    requires b < 160 && j <= 159 - b
    ensures ByteBits(Distance(own, RandomId(own, b, fill, low)))[j] == if j == 159 - b then 1 else 0
  {
    hide FlippedByte, ByteBits, BitsOf, Xor;
    var id := RandomId(own, b, fill, low);
    var p := 159 - b;
    XorIsBitwise(own, id);
    ByteBitAt(own, j);
    ByteBitAt(id, j);
    if j / 8 == p / 8 {
      FlippedBits(own[p / 8], 7 - p % 8, low, j % 8);
    } else {
      assert j / 8 < p / 8;
      assert id[j / 8] == own[j / 8];
    }
  }

  lemma {:induction false} BucketFromBits(d: Id, i: nat, p: nat)
    requires i <= p < 160 && (forall j :: i <= j < p ==> ByteBits(d)[j] == 0) && ByteBits(d)[p] == 1
    ensures BucketFrom(d, i) == 159 - p
    decreases p - i
  {
    if i < p {
      BucketFromBits(d, i + 1, p);
    }
  }

  /** Whatever is drawn, the id lands in the requested bucket. */
  lemma RandomIdInBucket(own: Id, b: nat, fill: Id, low: byte)
    requires b < 160
    ensures Bucket(own, RandomId(own, b, fill, low)) == b
  {
    var d := Distance(own, RandomId(own, b, fill, low));
    forall j | 0 <= j <= 159 - b ensures ByteBits(d)[j] == if j == 159 - b then 1 else 0 {
      RandomIdBit(own, b, fill, low, j);
    }
    BucketFromBits(d, 0, 159 - b);
  }

  /** Nothing in the bucket is out of reach: drawing an id's own bytes gives that id. */
  lemma EveryIdDrawn(own: Id, id: Id)
    requires id != own
    ensures var b := Bucket(own, id);
            RandomId(own, b, id, id[(159 - b) / 8]) == id
  {
    hide ByteBits, Xor, Number, FlippedFrom, BucketFrom;
    var b := Bucket(own, id);
    var p := 159 - b;
    var d := Distance(own, id);
    DistanceZero(own, id);
    SomeBit(d);
    BucketBits(d, 0);
    DrawnBack(own, id, p);
  }

  lemma DrawnBack(own: Id, id: Id, p: nat)
    requires p < 160 && ByteBits(Distance(own, id))[p] == 1
    requires forall j :: 0 <= j < p ==> ByteBits(Distance(own, id))[j] == 0
    ensures FlippedFrom(own, p / 8, 7 - p % 8, id, id[p / 8]) == id
  {
    hide ByteBits, BitsOf, Xor, FlippedByte;
    SameFlip(own, id, p);
    SamePrefix(own, id, p);
    Rebuild(id, p / 8);
  }

  lemma SamePrefix(own: Id, id: Id, p: nat)
    requires p < 160 && forall j :: 0 <= j < p ==> ByteBits(Distance(own, id))[j] == 0
    ensures own[..p / 8] == id[..p / 8]
  {
    hide ByteBits, Xor;
    forall m | 0 <= m < p / 8 ensures own[m] == id[m] {
      SameByte(own, id, m, p);
    }
  }

  lemma Rebuild(s: bytes, m: nat)
    requires m < |s|
    ensures s[..m] + [s[m]] + s[m + 1..] == s
  {
  }

  lemma SomeBit(d: Id)
    requires Number(d) != 0
    ensures exists j :: 0 <= j < 160 && ByteBits(d)[j] == 1
  {
    NumberIsValue(d);
    if forall j :: 0 <= j < 160 ==> ByteBits(d)[j] == 0 { AllZero(ByteBits(d)); }
  }

  lemma {:induction false} BucketBits(d: Id, i: nat)
    requires i <= 160 && exists j :: i <= j < 160 && ByteBits(d)[j] == 1
    ensures var p := 159 - BucketFrom(d, i);
            i <= p && ByteBits(d)[p] == 1 && forall j :: i <= j < p ==> ByteBits(d)[j] == 0
    decreases 160 - i
  {
    if ByteBits(d)[i] != 1 {
      BucketBits(d, i + 1);
    }
  }

  /** Bytes before the first differing bit agree. */
  lemma SameByte(own: Id, id: Id, m: nat, p: nat)
    requires m < p / 8 && p < 160 && forall j :: 0 <= j < p ==> ByteBits(Distance(own, id))[j] == 0
    ensures own[m] == id[m]
  {
    Power2Eight();
    hide ByteBits, BitsOf, Distance, Power2, ValueOf;
    forall t | 0 <= t < 8 ensures BitsOf(own[m], 8)[t] == BitsOf(id[m], 8)[t] {
      SameBit(own, id, 8 * m + t);
    }
    assert BitsOf(own[m], 8) == BitsOf(id[m], 8);
    ValueOfBits(own[m], 8);
    ValueOfBits(id[m], 8);
  }

  lemma SameBit(own: Id, id: Id, j: nat)
    requires j < 160
    ensures (ByteBits(Distance(own, id))[j] == 0) == (BitsOf(own[j / 8], 8)[j % 8] == BitsOf(id[j / 8], 8)[j % 8])
  {
    XorIsBitwise(own, id);
    ByteBitAt(own, j);
    ByteBitAt(id, j);
  }

  /** The byte of the first differing bit is the flipped byte with the id's own low bits. */
  lemma SameFlip(own: Id, id: Id, p: nat)
    requires p < 160 && ByteBits(Distance(own, id))[p] == 1
    requires forall j :: 0 <= j < p ==> ByteBits(Distance(own, id))[j] == 0
    ensures FlippedByte(own[p / 8], 7 - p % 8, id[p / 8]) == id[p / 8]
  {
    var m, k := p / 8, 7 - p % 8;
    var o, v := own[m], id[m];
    var f := FlippedByte(o, k, v);
    forall t | 0 <= t < 8 - k ensures BitsOf(f, 8)[t] == BitsOf(v, 8)[t] {
      SameFlipBit(own, id, p, t);
    }
    hide ByteBits, BitsOf, XorByte, PowerByte, Power2, Xor;
    SameHigh(f, v, k);
    KeepHigh(XorByte(o, PowerByte(k)), k, v);
    SameQuotient(f, v, XorByte(o, PowerByte(k)), Power2(k));
  }

  lemma SameFlipBit(own: Id, id: Id, p: nat, t: nat)
    requires p < 160 && ByteBits(Distance(own, id))[p] == 1 && t <= p % 8
    requires forall j :: 0 <= j < p ==> ByteBits(Distance(own, id))[j] == 0
    ensures BitsOf(FlippedByte(own[p / 8], 7 - p % 8, id[p / 8]), 8)[t] == BitsOf(id[p / 8], 8)[t]
  {
    hide ByteBits, BitsOf, FlippedByte, Xor;
    var m := p / 8;
    assert p == 8 * m + p % 8;
    FlippedBits(own[m], 7 - p % 8, id[m], t);
    SameBit(own, id, 8 * m + t);
  }

  lemma QuotientOfBits(v: byte, k: nat)
    requires k < 8
    ensures v / Power2(k) == ValueOf(BitsOf(v, 8)[..8 - k])
  {
    hide BitsOf, Power2;
    HighBits(v, 8, k);
    QuotientBelow(v, k);
    ValueOfBits(v / Power2(k), 8 - k);
  }

  lemma SameHigh(f: byte, v: byte, k: nat)
    requires k < 8 && forall t :: 0 <= t < 8 - k ==> BitsOf(f, 8)[t] == BitsOf(v, 8)[t]
    ensures f / Power2(k) == v / Power2(k)
  {
    hide BitsOf, Power2, ValueOf;
    QuotientOfBits(f, k);
    QuotientOfBits(v, k);
    assert BitsOf(f, 8)[..8 - k] == BitsOf(v, 8)[..8 - k];
  }

  lemma QuotientBelow(v: byte, k: nat)
    requires k < 8
    ensures v / Power2(k) < Power2(8 - k)
  {
    Split256(k);
    DivBounds(v, Power2(k));
    if v / Power2(k) >= Power2(8 - k) { MulMono(Power2(8 - k), v / Power2(k), Power2(k)); }
  }

  lemma SameQuotient(f: nat, v: nat, x: nat, p: nat)
    requires 0 < p && f == x / p * p + v % p && f / p == x / p == v / p
    ensures f == v
  {
    assert v == p * (v / p) + v % p;
  }
}
