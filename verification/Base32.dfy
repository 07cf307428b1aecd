/** The base32 text form of info hashes (section 6 of RFC 4648), without padding characters. */
module Base32 {
  import opened Arith
  import opened Bits
  import opened Bytes

  const ALPHABET: string := "ABCDEFGHIJKLMNOPQRSTUVWXYZ234567"

  /** Five bits stay below 32, eight below 256. */
  lemma Powers()
    ensures Power2(5) == 32 && Power2(8) == 256
  {
    assert Power2(2) == 4;
    assert Power2(4) == 16;
    assert Power2(6) == 64;
  }

  // ---------------------------------------------------------------- specification

  /** Whole bytes from the front; fewer than eight left over bits are dropped. */
  function BitsToBytes(bs: bits): (r: bytes)
    ensures |r| == |bs| / 8
  {
    if |bs| < 8 then []
    else
      ValueBelow(bs[..8]);
      Powers();
      [ValueOf(bs[..8])] + BitsToBytes(bs[8..])
  }

  function CharAt(bs: bits): char
    requires |bs| == 5
  {
    ValueBelow(bs);
    Powers();
    ALPHABET[ValueOf(bs)]
  }

  /** One character for every five bits, the last group filled up with zeros. */
  function Chars(bs: bits): string {
    if bs == [] then ""
    else if |bs| < 5 then [CharAt(bs + Zeros(5 - |bs|))]
    else [CharAt(bs[..5])] + Chars(bs[5..])
  }

  predicate InAlphabet(c: char) {
    'A' <= c <= 'Z' || '2' <= c <= '7'
  }

  /** BASE32_ALPHABET.indexOf(c) */
  function Index(c: char): (r: nat)
    requires InAlphabet(c)
    ensures r < 32
  {
    if 'A' <= c <= 'Z' then c as int - 'A' as int else c as int - '2' as int + 26
  }

  lemma IndexOfAlphabet(i: nat)
    requires i < 32
    ensures InAlphabet(ALPHABET[i]) && Index(ALPHABET[i]) == i
  {
    assert ALPHABET[..26] == "ABCDEFGHIJKLMNOPQRSTUVWXYZ";
  }

  lemma AlphabetOfIndex(c: char)
    requires InAlphabet(c)
    ensures ALPHABET[Index(c)] == c
  {
    IndexOfAlphabet(Index(c));
  }

  predicate AllInAlphabet(s: string) {
    forall i :: 0 <= i < |s| ==> InAlphabet(s[i])
  }

  function CharBits(s: string): (r: bits)
    requires AllInAlphabet(s)
    ensures |r| == 5 * |s|
  {
    if s == "" then [] else BitsOf(Index(s[0]), 5) + CharBits(s[1..])
  }

  function UpperChar(c: char): char {
    if 'a' <= c <= 'z' then (c as int - 32) as char else c
  }

  const SMALL_LETTERS: string := "abcdefghijklmnopqrstuvwxyz"

  /** The small letters become the first 26 of the alphabet, and no other character changes. */
  lemma UpperIs(i: nat, c: char)
    requires i < 26
    ensures UpperChar(SMALL_LETTERS[i]) == ALPHABET[i]
    ensures c !in SMALL_LETTERS ==> UpperChar(c) == c
  {
    SmallLetterAt(i);
    if 'a' <= c <= 'z' { SmallLetterAt(c as int - 97); }
  }

  lemma SmallLetterAt(i: nat)
    requires i < 26
    ensures SMALL_LETTERS[i] == (97 + i) as char && ALPHABET[i] == (65 + i) as char
  {
  }

  /** replace(/=/g, '').toUpperCase() on ASCII text. */
  function Normalize(s: string): string {
    if s == "" then "" else (if s[0] == '=' then "" else [UpperChar(s[0])]) + Normalize(s[1..])
  }

  datatype Error = InvalidBase32

  function Encode(b: bytes): string {
    Chars(ByteBits(b))
  }

  function Decode(s: string): Result<bytes, Error> {
    var t := Normalize(s);
    if t != "" && AllInAlphabet(t) then Ok(BitsToBytes(CharBits(t))) else Err(InvalidBase32)
  }

  /** A test vector in section 10 of RFC 4648, without its padding. */
  lemma Vector()
    ensures Encode(Text("f")) == "MY"
  {
    var b: bytes := [0x66];
    var bs: bits := [0, 1, 1, 0, 0, 1, 1, 0];
    assert Text("f") == b;
    LetterBits();
    assert b[1..] == [] && ByteBits(b) == BitsOf(0x66, 8) + ByteBits(b[1..]) == bs;
    hide ByteBits;
    assert bs[..5] == [0, 1, 1, 0, 0] && bs[5..] == [1, 1, 0];
    FiveBits(0, 1, 1, 0, 0);
    FiveBits(1, 1, 0, 0, 0);
    hide ValueOf;
    var rest: bits := [1, 1, 0];
    assert rest + Zeros(2) == [1, 1, 0, 0, 0];
    assert Chars(rest) == "Y";
    assert Chars(bs) == [CharAt(bs[..5])] + Chars(bs[5..]);
  }

  lemma LetterBits()
    ensures BitsOf(0x66, 8) == [0, 1, 1, 0, 0, 1, 1, 0]
  {
    assert BitsOf(6, 4) == [0, 1, 1, 0];
    assert BitsOf(0x19, 6) == BitsOf(6, 4) + [0] + [1];
    assert BitsOf(0x66, 8) == BitsOf(0x19, 6) + [1] + [0];
  }

  lemma FiveBits(a: bit, b: bit, c: bit, d: bit, e: bit)
    ensures ValueOf([a, b, c, d, e]) == 16 * a + 8 * b + 4 * c + 2 * d + e
  {
    ValueSnoc([], a);
    ValueSnoc([a], b);
    ValueSnoc([a, b], c);
    ValueSnoc([a, b, c], d);
    ValueSnoc([a, b, c, d], e);
    assert ValueOf([]) == 0;
    hide ValueOf;
    assert [] + [a] == [a] && [a] + [b] == [a, b] && [a, b] + [c] == [a, b, c];
    assert [a, b, c] + [d] == [a, b, c, d] && [a, b, c, d] + [e] == [a, b, c, d, e];
  }

  // ---------------------------------------------------------------- the loops

  method PushBits(bs: bits, v: nat, w: nat) returns (r: bits)
    ensures r == bs + BitsOf(v, w)
  {
    r := bs;
    var j := w;
    while j > 0
      invariant 0 <= j <= w
      invariant r == bs + BitsOf(v, w)[..w - j]
    {
      j := j - 1;
      BitAt(v, w, w - 1 - j);
      var b: bit := v / Power2(j) % 2;
      r := r + [b];
    }
  }

  /** val = (val << 1) | bit over a run of bits. */
  method Pack(bs: bits) returns (val: nat)
    ensures val == ValueOf(bs) && val < Power2(|bs|)
  {
    val := 0;
    for j := 0 to |bs|
      invariant val == ValueOf(bs[..j])
    {
      assert bs[..j + 1][..j] == bs[..j];
      val := 2 * val + bs[j];
    }
    assert bs[..|bs|] == bs;
    ValueBelow(bs);
  }

  /** The character for up to five bits, shifted left to fill the group. */
  method GroupChar(group: bits) returns (c: char)
    requires 0 < |group| <= 5
    ensures Chars(group) == [c]
  {
    var val := Pack(group);
    var missing := 5 - |group|;
    ShiftLeft(group, missing);
    ValueBelow(group + Zeros(missing));
    Powers();
    c := ALPHABET[val * Power2(missing)];
    if missing == 0 {
      assert group + Zeros(0) == group && group[..5] == group && group[5..] == [];
    }
  }

  lemma CharsSplit(bs: bits)
    requires 5 <= |bs|
    ensures Chars(bs) == Chars(bs[..5]) + Chars(bs[5..])
  {
    hide CharAt;
    var group := bs[..5];
    assert group[..5] == group && group[5..] == [];
    assert Chars([]) == "";
  }

  /** Five bits at a time; an incomplete group at the end is filled with zeros. */
  method PackChars(bs: bits) returns (result: string)
    ensures result == Chars(bs)
  {
    hide Chars, CharAt, Zeros;
    result := "";
    var i := 0;
    assert bs[0..] == bs;
    while i < |bs|
      invariant 0 <= i
      invariant result + Chars(if i <= |bs| then bs[i..] else []) == Chars(bs)
      decreases |bs| - i
    {
      if i + 5 <= |bs| {
        CharsSplit(bs[i..]);
        assert bs[i..][..5] == bs[i..i + 5] && bs[i..][5..] == bs[i + 5..];
        var c := GroupChar(bs[i..i + 5]);
        assert (result + [c]) + Chars(bs[i + 5..]) == result + ([c] + Chars(bs[i + 5..]));
        result := result + [c];
      } else {
        var c := GroupChar(bs[i..]);
        result := result + [c];
        CharsEmpty();
      }
      i := i + 5;
    }
    CharsEmpty();
    assert (if i <= |bs| then bs[i..] else []) == [] && result + "" == result;
  }

  method EncodeBase32(buffer: bytes) returns (result: string)
    ensures result == Encode(buffer)
  {
    var bs: bits := [];
    for i := 0 to |buffer|
      invariant bs + ByteBits(buffer[i..]) == ByteBits(buffer)
    {
      assert buffer[i..][1..] == buffer[i + 1..];
      bs := PushBits(bs, buffer[i], 8);
    }
    assert bs + [] == bs;
    result := PackChars(bs);
  }

  lemma CharsEmpty()
    ensures Chars([]) == "" && BitsToBytes([]) == []
  {
  }

  lemma {:induction false} ShiftLeft(bs: bits, n: nat)
    ensures ValueOf(bs + Zeros(n)) == ValueOf(bs) * Power2(n)
  {
    if n == 0 {
      assert bs + Zeros(0) == bs;
    } else {
      ShiftLeft(bs, n - 1);
      PowerStep(n - 1);
      hide ValueOf, Power2;
      ValueSnoc(bs + Zeros(n - 1), 0);
      assert bs + Zeros(n) == (bs + Zeros(n - 1)) + [0];
      Doubled(ValueOf(bs), Power2(n - 1));
    }
  }

  lemma BytesStep(bs: bits, i: nat)
    requires i < |bs|
    ensures if i + 8 <= |bs| then
              ValueOf(bs[i..i + 8]) < 256 && BitsToBytes(bs[i..]) == [ValueOf(bs[i..i + 8])] + BitsToBytes(bs[i + 8..])
            else BitsToBytes(bs[i..]) == []
    ensures BitsToBytes([]) == []
  {
    if i + 8 <= |bs| {
      hide ValueOf;
      ValueBelow(bs[i..i + 8]);
      Power2Eight();
      assert bs[i..][..8] == bs[i..i + 8] && bs[i..][8..] == bs[i + 8..];
    }
  }

  /** Eight bits at a time; an incomplete run at the end is dropped. */
  method UnpackBytes(bs: bits) returns (out: bytes)
    ensures out == BitsToBytes(bs)
  {
    out := [];
    var i := 0;
    assert bs[0..] == bs;
    while i < |bs|
      invariant 0 <= i
      invariant out + BitsToBytes(if i <= |bs| then bs[i..] else []) == BitsToBytes(bs)
      decreases |bs| - i
    {
      hide BitsToBytes;
      BytesStep(bs, i);
      if i + 8 <= |bs| {
        var b := Pack(bs[i..i + 8]);
        assert (out + [b]) + BitsToBytes(bs[i + 8..]) == out + ([b] + BitsToBytes(bs[i + 8..]));
        out := out + [b];
      }
      i := i + 8;
    }
    assert out + BitsToBytes([]) == out by { CharsEmpty(); }
  }

  lemma CharBitsStep(s: string, i: nat)
    requires AllInAlphabet(s) && i < |s|
    ensures AllInAlphabet(s[i..]) && AllInAlphabet(s[i + 1..])
    ensures CharBits(s[i..]) == BitsOf(Index(s[i]), 5) + CharBits(s[i + 1..])
    ensures CharBits("") == []
  {
    assert s[i..][1..] == s[i + 1..];
  }

  method DecodeBase32(base32Str: string) returns (r: Result<bytes, Error>)
    ensures r == Decode(base32Str)
  {
    hide BitsToBytes, Normalize, CharBits;
    var str := Normalize(base32Str);
    if str == "" || !AllInAlphabet(str) { return Err(InvalidBase32); }
    var bs: bits := [];
    for i := 0 to |str|
      invariant bs + CharBits(str[i..]) == CharBits(str)
    {
      CharBitsStep(str, i);
      assert bs + (BitsOf(Index(str[i]), 5) + CharBits(str[i + 1..]))
           == (bs + BitsOf(Index(str[i]), 5)) + CharBits(str[i + 1..]);
      bs := PushBits(bs, Index(str[i]), 5);
    }
    assert str[|str|..] == "" && bs + [] == bs;
    var out := UnpackBytes(bs);
    return Ok(out);
  }

  // ---------------------------------------------------------------- round trips

  function Padding(n: nat): (r: nat)
    ensures r < 5 && (n + r) % 5 == 0
  {
    (5 - n % 5) % 5
  }

  lemma PaddingStep(n: nat)
    requires 5 <= n
    ensures Padding(n) == Padding(n - 5)
  {
  }

  lemma CharBitsOfGroup(group: bits, t: string)
    requires |group| == 5 && AllInAlphabet(t)
    ensures AllInAlphabet([CharAt(group)] + t) && CharBits([CharAt(group)] + t) == group + CharBits(t)
  {
    ValueBelow(group);
    Powers();
    IndexOfAlphabet(ValueOf(group));
    BitsOfValue(group);
    assert ([CharAt(group)] + t)[1..] == t;
  }

  lemma {:induction false} CharBitsOfChars(bs: bits)
    ensures AllInAlphabet(Chars(bs)) && CharBits(Chars(bs)) == bs + Zeros(Padding(|bs|))
  {
    hide CharAt, InAlphabet;
    if bs == [] {
    } else if |bs| >= 5 {
      CharBitsOfChars(bs[5..]);
      CharBitsOfGroup(bs[..5], Chars(bs[5..]));
      PaddingStep(|bs|);
      assert bs[..5] + (bs[5..] + Zeros(Padding(|bs|))) == bs + Zeros(Padding(|bs|));
    } else {
      CharBitsOfGroup(bs + Zeros(5 - |bs|), "");
      assert [CharAt(bs + Zeros(5 - |bs|))] + "" == Chars(bs);
      assert CharBits("") == [];
    }
  }

  lemma {:induction false} BytesOfByteBits(b: bytes, z: bits)
    requires |z| < 8
    ensures BitsToBytes(ByteBits(b) + z) == b
  {
    if b == [] {
      assert ByteBits(b) + z == z;
    } else {
      var bs := ByteBits(b) + z;
      assert bs[..8] == BitsOf(b[0], 8) && bs[8..] == ByteBits(b[1..]) + z;
      Powers();
      ValueOfBits(b[0], 8);
      BytesOfByteBits(b[1..], z);
    }
  }

  lemma {:induction false} NormalizeUpper(s: string)
    requires AllInAlphabet(s)
    ensures Normalize(s) == s
  {
    if s != "" {
      NormalizeUpper(s[1..]);
    }
  }

  /** Decoding an encoding gives the bytes back; only the empty text is refused. */
  lemma DecodeEncode(b: bytes)
    ensures Decode(Encode(b)) == if b == [] then Err(InvalidBase32) else Ok(b)
  {
    var bs := ByteBits(b);
    CharBitsOfChars(bs);
    NormalizeUpper(Encode(b));
    BytesOfByteBits(b, Zeros(Padding(|bs|)));
  }

  lemma {:induction false} ByteBitsOfBytes(bs: bits)
    ensures ByteBits(BitsToBytes(bs)) == bs[..|bs| / 8 * 8]
  {
    if |bs| >= 8 {
      ByteBitsOfBytes(bs[8..]);
      BitsOfValue(bs[..8]);
      assert BitsToBytes(bs)[1..] == BitsToBytes(bs[8..]);
      assert |bs[8..]| / 8 * 8 == |bs| / 8 * 8 - 8;
      assert bs[..|bs| / 8 * 8] == bs[..8] + bs[8..][..|bs| / 8 * 8 - 8];
    }
  }

  lemma {:induction false} CharBitsInjective(s: string, t: string)
    requires AllInAlphabet(s) && AllInAlphabet(t) && CharBits(s) == CharBits(t)
    ensures s == t
  {
    if s != "" {
      assert |s| == |t|;
      assert BitsOf(Index(s[0]), 5) == CharBits(s)[..5] == BitsOf(Index(t[0]), 5);
      assert CharBits(s[1..]) == CharBits(s)[5..] == CharBits(t[1..]);
      Powers();
      ValueOfBits(Index(s[0]), 5);
      ValueOfBits(Index(t[0]), 5);
      AlphabetOfIndex(s[0]);
      AlphabetOfIndex(t[0]);
      CharBitsInjective(s[1..], t[1..]);
      assert s == [s[0]] + s[1..] && t == [t[0]] + t[1..];
    }
  }

  /** The bits decoding drops are fewer than a character's worth, and all zero. */
  predicate Canonical(t: string)
    requires AllInAlphabet(t)
  {
    var bs := CharBits(t);
    |bs| % 8 < 5 && forall i :: |bs| / 8 * 8 <= i < |bs| ==> bs[i] == 0
  }

  lemma KeptBits(t: string, kept: bits, drop: nat)
    requires AllInAlphabet(t) && drop < 8 && |kept| + drop == |CharBits(t)| && kept == CharBits(t)[..|kept|]
    ensures Chars(kept) == t <==> drop < 5 && CharBits(t)[|kept|..] == Zeros(drop)
  {
    hide CharBits, Chars;
    var bs := CharBits(t);
    CharBitsOfChars(kept);
    assert bs == kept + bs[|kept|..];
    if Chars(kept) == t {
      assert bs[|kept|..] == Zeros(Padding(|kept|));
    }
    if drop < 5 && bs[|kept|..] == Zeros(drop) {
      assert Padding(|kept|) == drop;
      CharBitsInjective(Chars(kept), t);
    }
  }

  /** Encoding a decoded text gives it back in upper case exactly when nothing but zero padding was dropped. */
  lemma EncodeDecode(s: string)
    requires Decode(s).Ok?
    ensures Encode(Decode(s).value) == Normalize(s) <==> Canonical(Normalize(s))
  {
    hide CharBits, Chars, ByteBits, BitsToBytes;
    var t := Normalize(s);
    var bs := CharBits(t);
    var m := |bs| / 8 * 8;
    ByteBitsOfBytes(bs);
    KeptBits(t, bs[..m], |bs| % 8);
    assert bs[m..] == Zeros(|bs| % 8) <==> forall i :: m <= i < |bs| ==> bs[i] == 0 by {
      assert forall i :: m <= i < |bs| ==> bs[i] == bs[m..][i - m];
    }
  }

  lemma {:induction false} NormalizeLength(s: string)
    requires '=' !in s
    ensures |Normalize(s)| == |s|
  {
    if s != "" {
      NormalizeLength(s[1..]);
    }
  }

  /** The 32-character form of an info hash: 20 bytes, and re-encoding gives the text in upper case. */
  lemma InfoHashText(s: string)
    requires |s| == 32 && '=' !in s && Decode(s).Ok?
    ensures |Decode(s).value| == 20 && Encode(Decode(s).value) == Normalize(s)
  {
    NormalizeLength(s);
    EncodeDecode(s);
  }
}
