/**
 Bencode (BEP 3, section "Bencoding"): the value trees, the encoding as a function of a key order, and the parser as a
 function of a buffer and a position.
 */
module Bencode {
  import opened Bytes

  type Key = bytes

  const MAX_SAFE: int := 9007199254740991

  /** The integers a JavaScript number holds exactly. */
  type safeInt = n: int | -MAX_SAFE <= n <= MAX_SAFE

  datatype Value =
    | Int(n: safeInt)
    | Str(s: bytes)
    | List(items: seq<Value>)
    | Dict(entries: map<Key, Value>)

  datatype Error =
    | UnexpectedEnd
    | UnexpectedByte
    | MissingEnd
    | EmptyInteger
    | LeadingZero
    | NotANumber
    | UnsafeInteger
    | MissingColon
    | BadLength
    | LengthExceedsBuffer
    | KeyNotAString
    | KeyWithoutValue
    | TrailingData

  // ---------------------------------------------------------------- decimal text

  predicate IsDigit(b: byte) {
    0x30 <= b <= 0x39
  }

  function Digits(n: nat): (r: bytes)
    ensures r != [] && forall b :: b in r ==> IsDigit(b)
    ensures r[0] == 0x30 ==> n == 0 && |r| == 1
  {
    if n < 10 then [0x30 + n] else Digits(n / 10) + [0x30 + n % 10]
  }

  /** The text of `${n}`. */
  function PrintInt(n: int): bytes {
    if n < 0 then [0x2d] + Digits(-n) else Digits(n)
  }

  /** Value of the leading digits of `s`, continuing from `acc`; the rest of `s` is ignored. */
  function LeadingDigits(s: bytes, acc: nat): nat {
    if s == [] || !IsDigit(s[0]) then acc else LeadingDigits(s[1..], 10 * acc + (s[0] - 0x30))
  }

  function SkipSpace(s: bytes): bytes {
    if s != [] && (s[0] == 0x20 || 0x09 <= s[0] <= 0x0d) then SkipSpace(s[1..]) else s
  }

  /** parseInt(s, 10): leading blanks, a sign, the longest run of digits; None is NaN. */
  function ParseInt(s: bytes): Option<int> {
    var t := SkipSpace(s);
    var neg := t != [] && t[0] == 0x2d;
    var u := if t != [] && (t[0] == 0x2d || t[0] == 0x2b) then t[1..] else t;
    if u == [] || !IsDigit(u[0]) then None
    else
      var m: int := LeadingDigits(u, 0);
      Some(if neg then -m else m)
  }

  lemma {:induction false} LeadingDigitsOfDigits(n: nat, rest: bytes)
    ensures LeadingDigits(Digits(n) + rest, 0) == LeadingDigits(rest, n)
  {
    var s := Digits(n) + rest;
    if n < 10 {
      assert s[1..] == rest;
    } else {
      var last := [0x30 + n % 10] + rest;
      assert s == Digits(n / 10) + last;
      LeadingDigitsOfDigits(n / 10, last);
      assert last[1..] == rest;
    }
  }

  /** Decimal text is read back to the number it was printed from. */
  lemma ParseIntOfPrintInt(n: int)
    ensures ParseInt(PrintInt(n)) == Some(n)
  {
    var m: nat := if n < 0 then -n else n;
    LeadingDigitsOfDigits(m, []);
    assert Digits(m) + [] == Digits(m);
    assert SkipSpace(PrintInt(n)) == PrintInt(n);
    if n < 0 {
      assert PrintInt(n)[1..] == Digits(m);
    }
  }

  // ---------------------------------------------------------------- encoding

  ghost predicate StrictTotalOrder(less: (Key, Key) -> bool) {
    && (forall a :: !less(a, a))
    && (forall a, b, c :: less(a, b) && less(b, c) ==> less(a, c))
    && (forall a, b :: a != b ==> less(a, b) || less(b, a))
  }

  ghost predicate Ascending(ks: seq<Key>, less: (Key, Key) -> bool) {
    forall i, j :: 0 <= i < j < |ks| ==> less(ks[i], ks[j])
  }

  /** Where `k` goes in an ascending list. */
  function Insert(k: Key, ks: seq<Key>, less: (Key, Key) -> bool): (r: seq<Key>)
    ensures forall x :: x in r <==> x == k || x in ks
  {
    if ks == [] then [k]
    else
      assert ks == [ks[0]] + ks[1..];
      if less(k, ks[0]) then [k] + ks else [ks[0]] + Insert(k, ks[1..], less)
  }

  lemma {:induction false} InsertAscending(k: Key, ks: seq<Key>, less: (Key, Key) -> bool)
    requires StrictTotalOrder(less) && Ascending(ks, less) && k !in ks
    ensures Ascending(Insert(k, ks, less), less)
  {
    if ks != [] && !less(k, ks[0]) {
      var rest := Insert(k, ks[1..], less);
      InsertAscending(k, ks[1..], less);
      forall j | 0 <= j < |rest| ensures less(ks[0], rest[j]) {
        assert rest[j] in rest;
        assert rest[j] == k || rest[j] in ks[1..];
      }
    }
  }

  /** The keys of a dictionary, each once, sorted by the encoder's comparison. */
  ghost function SortedKeys(s: set<Key>, less: (Key, Key) -> bool): (r: seq<Key>)
    ensures forall k :: k in r <==> k in s
    ensures StrictTotalOrder(less) ==> Ascending(r, less)
  {
    if s == {} then []
    else
      var k :| k in s;
      var rest := SortedKeys(s - {k}, less);
      if StrictTotalOrder(less) then InsertAscending(k, rest, less); Insert(k, rest, less)
      else Insert(k, rest, less)
  }

  lemma HeadIn(s: seq<Key>)
    ensures s == [] || s[0] in s
  {
  }

  /** An ascending list is determined by its elements, so the choice of sorting algorithm does not matter. */
  lemma {:induction false} AscendingUnique(a: seq<Key>, b: seq<Key>, less: (Key, Key) -> bool)
    requires StrictTotalOrder(less) && Ascending(a, less) && Ascending(b, less)
    requires forall k :: k in a <==> k in b
    ensures a == b
  {
    HeadIn(a);
    HeadIn(b);
    if a == [] {
    } else {
      assert a[0] == b[0];
      assert forall k :: k in a[1..] <==> k in b[1..] by {
        forall k ensures k in a[1..] <==> k in b[1..] {
          if k in a[1..] { assert k in b && k != b[0]; }
          if k in b[1..] { assert k in a && k != a[0]; }
        }
      }
      AscendingUnique(a[1..], b[1..], less);
    }
  }

  function EncodeString(s: bytes): (r: bytes)
    ensures r != [] && IsDigit(r[0])
  {
    Digits(|s|) + [0x3a] + s
  }

  ghost function Encode(v: Value, less: (Key, Key) -> bool): (r: bytes)
    ensures r != [] && r[0] != 0x65
    decreases v, 1
  {
    match v
    case Int(n) => [0x69] + PrintInt(n) + [0x65]
    case Str(s) => EncodeString(s)
    case List(items) => [0x6c] + EncodeItems(items, less) + [0x65]
    case Dict(entries) => [0x64] + EncodeEntries(v, SortedKeys(entries.Keys, less), less) + [0x65]
  }

  ghost function EncodeItems(items: seq<Value>, less: (Key, Key) -> bool): bytes
    decreases items, 0
  {
    if items == [] then [] else Encode(items[0], less) + EncodeItems(items[1..], less)
  }

  /** The entries of dictionary `d` under `keys`, in that order. */
  ghost function EncodeEntries(d: Value, keys: seq<Key>, less: (Key, Key) -> bool): bytes
    requires d.Dict? && forall k :: k in keys ==> k in d.entries
    decreases d, 0, |keys|
  {
    if keys == [] then []
    else EncodeString(keys[0]) + Encode(d.entries[keys[0]], less) + EncodeEntries(d, keys[1..], less)
  }

  /** The forms of BEP 3, section bencoding: numbers and strings. */
  lemma Format(s: bytes, less: (Key, Key) -> bool)
    requires |s| == 12
    ensures Encode(Int(0), less) == Text("i0e") && Encode(Int(-42), less) == Text("i-42e")
    ensures Encode(Str([]), less) == Text("0:") && Encode(Str(s), less) == Text("12:") + s
  {
    assert Digits(42) == Digits(4) + [0x32] == [0x34, 0x32];
    assert Digits(12) == Digits(1) + [0x32] == [0x31, 0x32];
    hide Digits;
  }

  /** The forms of lists and dictionaries. */
  lemma FormatOfMany(v: Value, k: Key, less: (Key, Key) -> bool)
    ensures Encode(List([v]), less) == Text("l") + Encode(v, less) + Text("e")
    ensures Encode(Dict(map[k := v]), less) == Text("d") + Encode(Str(k), less) + Encode(v, less) + Text("e")
  {
    var d := Dict(map[k := v]);
    OneKey(k, less);
    OneItem(v, less);
    assert EncodeEntries(d, [k], less) == EncodeString(k) + Encode(v, less) + EncodeEntries(d, [k][1..], less);
    assert [k][1..] == [];
    hide EncodeItems, EncodeString, SortedKeys;
    assert Text("l") == [0x6c] && Text("d") == [0x64] && Text("e") == [0x65];
  }

  lemma OneItem(v: Value, less: (Key, Key) -> bool)
    ensures EncodeItems([v], less) == Encode(v, less)
  {
    hide Encode;
    assert [v][1..] == [] && EncodeItems([v], less) == Encode(v, less) + EncodeItems([v][1..], less);
  }

  lemma OneKey(k: Key, less: (Key, Key) -> bool)
    ensures SortedKeys({k}, less) == [k]
    ensures forall v: Value :: map[k := v].Keys == {k}
  {
    assert {k} - {k} == {};
  }

  // ---------------------------------------------------------------- decoding

  function ParseInteger(buf: bytes, pos: nat): (r: Result<(Value, nat), Error>)
    requires pos < |buf|
    ensures r.Ok? ==> pos < r.value.1 <= |buf|
  {
    var end := IndexOf(buf, pos + 1, 0x65);
    if end >= |buf| then Err(MissingEnd)
    else
      var text := buf[pos + 1..end];
      if text == [] then Err(EmptyInteger)
      else if text[0] == 0x30 && |text| > 1 then Err(LeadingZero)
      else if text[0] == 0x2d && |text| > 1 && text[1] == 0x30 then Err(LeadingZero)
      else
        match ParseInt(text)
        case None => Err(NotANumber)
        case Some(n) => if -MAX_SAFE <= n <= MAX_SAFE then Ok((Int(n), end + 1)) else Err(UnsafeInteger)
  }

  function ParseByteString(buf: bytes, pos: nat): (r: Result<(bytes, nat), Error>)
    requires pos < |buf|
    ensures r.Ok? ==> pos < r.value.1 <= |buf|
  {
    var colon := IndexOf(buf, pos, 0x3a);
    if colon >= |buf| then Err(MissingColon)
    else
      var text := buf[pos..colon];
      if text == [] then Err(BadLength)
      else if text[0] == 0x30 && |text| > 1 then Err(LeadingZero)
      else
        match ParseInt(text)
        case None => Err(BadLength)
        case Some(n) =>
          if n < 0 then Err(BadLength)
          else if colon + 1 + n > |buf| then Err(LengthExceedsBuffer)
          else Ok((buf[colon + 1..colon + 1 + n], colon + 1 + n))
  }

  function ParseNext(buf: bytes, pos: nat): (r: Result<(Value, nat), Error>)
    requires pos <= |buf|
    ensures r.Ok? ==> pos < r.value.1 <= |buf|
    decreases |buf| - pos, 1
  {
    if pos == |buf| then Err(UnexpectedEnd)
    else if buf[pos] == 0x69 then ParseInteger(buf, pos)
    else if buf[pos] == 0x6c then
      match ParseItems(buf, pos + 1)
      case Err(e) => Err(e)
      case Ok((vs, q)) => Ok((List(vs), q))
    else if buf[pos] == 0x64 then
      match ParseEntries(buf, pos + 1, map[])
      case Err(e) => Err(e)
      case Ok((m, q)) => Ok((Dict(m), q))
    else if IsDigit(buf[pos]) then
      match ParseByteString(buf, pos)
      case Err(e) => Err(e)
      case Ok((s, q)) => Ok((Str(s), q))
    else Err(UnexpectedByte)
  }

  /** The items from `pos` up to and including the closing 'e'. */
  function ParseItems(buf: bytes, pos: nat): (r: Result<(seq<Value>, nat), Error>)
    requires pos <= |buf|
    ensures r.Ok? ==> pos < r.value.1 <= |buf|
    decreases |buf| - pos, 2
  {
    if pos == |buf| then Err(MissingEnd)
    else if buf[pos] == 0x65 then Ok(([], pos + 1))
    else
      match ParseNext(buf, pos)
      case Err(e) => Err(e)
      case Ok((v, q)) =>
        match ParseItems(buf, q)
        case Err(e) => Err(e)
        case Ok((vs, q')) => Ok(([v] + vs, q'))
  }

  /** The entries from `pos` up to and including the closing 'e', added to `acc`; a repeated key overwrites. */
  function ParseEntries(buf: bytes, pos: nat, acc: map<Key, Value>): (r: Result<(map<Key, Value>, nat), Error>)
    requires pos <= |buf|
    ensures r.Ok? ==> pos < r.value.1 <= |buf|
    decreases |buf| - pos, 2
  {
    if pos == |buf| then Err(MissingEnd)
    else if buf[pos] == 0x65 then Ok((acc, pos + 1))
    else if !IsDigit(buf[pos]) then Err(KeyNotAString)
    else
      match ParseByteString(buf, pos)
      case Err(e) => Err(e)
      case Ok((k, p)) =>
        if p >= |buf| || buf[p] == 0x65 then Err(KeyWithoutValue)
        else
          match ParseNext(buf, p)
          case Err(e) => Err(e)
          case Ok((v, q)) => ParseEntries(buf, q, acc[k := v])
  }

  /** decode(buffer): one value that takes up the whole buffer. */
  function Decode(buf: bytes): Result<Value, Error> {
    match ParseNext(buf, 0)
    case Err(e) => Err(e)
    case Ok((v, q)) => if q == |buf| then Ok(v) else Err(TrailingData)
  }

  /** Property access on a decoded value: undefined unless it is a dictionary with that key. */
  function Field(v: Value, key: Key): Option<Value> {
    if v.Dict? && key in v.entries then Some(v.entries[key]) else None
  }

  // ---------------------------------------------------------------- round trip

  /** `text` stands in `buf` at `pos`. */
  predicate At(buf: bytes, pos: nat, text: bytes) {
    pos + |text| <= |buf| && buf[pos..pos + |text|] == text
  }

  lemma AtSplit(buf: bytes, pos: nat, a: bytes, b: bytes)
    ensures At(buf, pos, a + b) <==> At(buf, pos, a) && At(buf, pos + |a|, b)
  {
    if pos + |a| + |b| <= |buf| {
      assert buf[pos..pos + |a + b|] == buf[pos..pos + |a|] + buf[pos + |a|..pos + |a| + |b|];
      if At(buf, pos, a + b) {
        assert buf[pos..pos + |a|] == (a + b)[..|a|] == a;
        assert buf[pos + |a|..pos + |a| + |b|] == (a + b)[|a|..] == b;
      }
    }
  }

  lemma IndexOfAfter(buf: bytes, pos: nat, text: bytes, c: byte)
    requires At(buf, pos, text + [c]) && c !in text
    ensures IndexOf(buf, pos, c) == pos + |text|
  {
    AtSplit(buf, pos, text, [c]);
    assert buf[pos + |text|] == [c][0];
    forall i | pos <= i < pos + |text| ensures buf[i] != c {
      assert buf[i] == buf[pos..pos + |text|][i - pos];
    }
  }

  /** Where the parts of an encoded integer stand. */
  lemma IntegerAt(buf: bytes, pos: nat, text: bytes)
    requires At(buf, pos, [0x69] + text + [0x65]) && 0x65 !in text
    ensures pos + 1 + |text| < |buf| && buf[pos] == 0x69
    ensures IndexOf(buf, pos + 1, 0x65) == pos + 1 + |text| && buf[pos + 1..pos + 1 + |text|] == text
  {
    Assoc([0x69], text, [0x65]);
    AtSplit(buf, pos, [0x69], text + [0x65]);
    AtHead(buf, pos, [0x69]);
    IndexOfAfter(buf, pos + 1, text, 0x65);
    AtSplit(buf, pos + 1, text, [0x65]);
  }

  /** Printed integers have no leading zero. */
  lemma PrintedForm(n: int)
    ensures var t := PrintInt(n);
            && t != [] && 0x65 !in t
            && !(t[0] == 0x30 && |t| > 1)
            && !(t[0] == 0x2d && |t| > 1 && t[1] == 0x30)
  {
    if n < 0 {
      assert PrintInt(n)[1] == Digits(-n)[0];
    } else {
      assert Digits(n)[0] in Digits(n);
    }
  }

  lemma ParseIntegerEncoded(buf: bytes, pos: nat, n: safeInt)
    requires At(buf, pos, [0x69] + PrintInt(n) + [0x65])
    ensures buf[pos] == 0x69 && ParseInteger(buf, pos) == Ok((Int(n), pos + |PrintInt(n)| + 2))
  {
    PrintedForm(n);
    hide IndexOf, ParseInt, PrintInt, At;
    IntegerAt(buf, pos, PrintInt(n));
    ParseIntOfPrintInt(n);
  }

  lemma ParseByteStringEncoded(buf: bytes, pos: nat, s: bytes)
    requires At(buf, pos, EncodeString(s))
    ensures IsDigit(buf[pos]) && ParseByteString(buf, pos) == Ok((s, pos + |EncodeString(s)|))
  {
    var d := Digits(|s|);
    AtSplit(buf, pos, d + [0x3a], s);
    IndexOfAfter(buf, pos, d, 0x3a);
    AtSplit(buf, pos, d, [0x3a]);
    assert buf[pos] == d[0];
    ParseIntOfPrintInt(|s|);
  }

  lemma {:induction false} ParseEncoded(buf: bytes, pos: nat, v: Value, less: (Key, Key) -> bool)
    requires At(buf, pos, Encode(v, less))
    ensures ParseNext(buf, pos) == Ok((v, pos + |Encode(v, less)|))
    decreases v, 1
  {
    hide ParseItems, ParseEntries, ParseInteger, ParseByteString, EncodeItems, EncodeEntries;
    assert buf[pos] == Encode(v, less)[0];
    match v
    case Int(n) => ParseIntegerEncoded(buf, pos, n);
    case Str(s) => ParseByteStringEncoded(buf, pos, s);
    case List(items) =>
      var body := EncodeItems(items, less) + [0x65];
      assert Encode(v, less) == [0x6c] + body;
      AtSplit(buf, pos, [0x6c], body);
      ParseItemsEncoded(buf, pos + 1, items, less);
    case Dict(entries) =>
      var keys := SortedKeys(entries.Keys, less);
      var body := EncodeEntries(v, keys, less) + [0x65];
      assert Encode(v, less) == [0x64] + body;
      AtSplit(buf, pos, [0x64], body);
      ParseEntriesEncoded(buf, pos + 1, v, keys, map[], less);
      assert map[] + Restrict(entries, keys) == entries;
  }

  lemma ItemsSplit(buf: bytes, pos: nat, items: seq<Value>, less: (Key, Key) -> bool)
    requires items != [] && At(buf, pos, EncodeItems(items, less) + [0x65])
    ensures At(buf, pos, Encode(items[0], less))
    ensures At(buf, pos + |Encode(items[0], less)|, EncodeItems(items[1..], less) + [0x65])
    ensures buf[pos] != 0x65
  {
    hide Encode, At;
    var first, rest := Encode(items[0], less), EncodeItems(items[1..], less);
    Assoc(first, rest, [0x65]);
    AtSplit(buf, pos, first, rest + [0x65]);
    AtHead(buf, pos, first);
  }

  lemma Assoc(a: bytes, b: bytes, c: bytes)
    ensures (a + b) + c == a + (b + c)
  {
  }

  lemma AtHead(buf: bytes, pos: nat, text: bytes)
    requires At(buf, pos, text) && text != []
    ensures pos < |buf| && buf[pos] == text[0]
  {
    assert buf[pos..pos + |text|][0] == buf[pos];
  }

  lemma {:induction false} ParseItemsEncoded(buf: bytes, pos: nat, items: seq<Value>, less: (Key, Key) -> bool)
    requires At(buf, pos, EncodeItems(items, less) + [0x65])
    ensures ParseItems(buf, pos) == Ok((items, pos + |EncodeItems(items, less)| + 1))
    decreases items, 0
  {
    hide ParseNext, Encode;
    if items == [] {
      assert buf[pos] == (EncodeItems(items, less) + [0x65])[0];
    } else {
      ItemsSplit(buf, pos, items, less);
      ParseEncoded(buf, pos, items[0], less);
      ParseItemsEncoded(buf, pos + |Encode(items[0], less)|, items[1..], less);
      assert [items[0]] + items[1..] == items;
    }
  }

  ghost function Restrict(m: map<Key, Value>, keys: seq<Key>): map<Key, Value> {
    map k | k in m && k in keys :: m[k]
  }

  lemma RestrictStep(m: map<Key, Value>, keys: seq<Key>, acc: map<Key, Value>)
    requires keys != [] && keys[0] in m
    ensures acc[keys[0] := m[keys[0]]] + Restrict(m, keys[1..]) == acc + Restrict(m, keys)
  {
  }

  lemma EntriesSplit(buf: bytes, pos: nat, d: Value, keys: seq<Key>, less: (Key, Key) -> bool)
    requires d.Dict? && keys != [] && forall k :: k in keys ==> k in d.entries
    requires At(buf, pos, EncodeEntries(d, keys, less) + [0x65])
    ensures At(buf, pos, EncodeString(keys[0]))
    ensures ParseByteString(buf, pos) == Ok((keys[0], pos + |EncodeString(keys[0])|)) && IsDigit(buf[pos])
    ensures At(buf, pos + |EncodeString(keys[0])|, Encode(d.entries[keys[0]], less))
    ensures buf[pos + |EncodeString(keys[0])|] != 0x65
    ensures At(buf, pos + |EncodeString(keys[0])| + |Encode(d.entries[keys[0]], less)|,
               EncodeEntries(d, keys[1..], less) + [0x65])
  {
    hide Encode, EncodeString, ParseByteString, At, Digits;
    var a, b := EncodeString(keys[0]), Encode(d.entries[keys[0]], less);
    var rest := EncodeEntries(d, keys[1..], less);
    Assoc(a + b, rest, [0x65]);
    Assoc(a, b, rest + [0x65]);
    AtSplit(buf, pos, a, b + (rest + [0x65]));
    AtSplit(buf, pos + |a|, b, rest + [0x65]);
    ParseByteStringEncoded(buf, pos, keys[0]);
    AtHead(buf, pos + |a|, b);
  }

  lemma {:induction false} ParseEntriesEncoded(buf: bytes, pos: nat, d: Value, keys: seq<Key>, acc: map<Key, Value>,
                                               less: (Key, Key) -> bool)
    requires d.Dict? && forall k :: k in keys ==> k in d.entries
    requires At(buf, pos, EncodeEntries(d, keys, less) + [0x65])
    ensures ParseEntries(buf, pos, acc)
         == Ok((acc + Restrict(d.entries, keys), pos + |EncodeEntries(d, keys, less)| + 1))
    decreases d, 0, |keys|
  {
    hide ParseNext, ParseByteString, Encode, EncodeString;
    if keys == [] {
      assert buf[pos] == (EncodeEntries(d, keys, less) + [0x65])[0];
      assert acc + Restrict(d.entries, keys) == acc;
    } else {
      EntriesSplit(buf, pos, d, keys, less);
      var k, v := keys[0], d.entries[keys[0]];
      var p := pos + |EncodeString(k)|;
      ParseEncoded(buf, p, v, less);
      ParseEntriesEncoded(buf, p + |Encode(v, less)|, d, keys[1..], acc[k := v], less);
      RestrictStep(d.entries, keys, acc);
    }
  }

  /** decode inverts encode, whatever strict order the keys are sorted by, and takes up the whole buffer. */
  lemma DecodeEncode(v: Value, less: (Key, Key) -> bool)
    ensures Decode(Encode(v, less)) == Ok(v)
  {
    var buf := Encode(v, less);
    assert buf[0..0 + |buf|] == buf;
    ParseEncoded(buf, 0, v, less);
  }

  /** Encodings are self-delimiting: what follows one can never be mistaken for a part of it. */
  lemma EncodePrefixFree(v: Value, w: Value, r: bytes, s: bytes, less: (Key, Key) -> bool)
    requires Encode(v, less) + r == Encode(w, less) + s
    ensures v == w && r == s
  {
    var buf := Encode(v, less) + r;
    assert buf[0..0 + |Encode(v, less)|] == Encode(v, less);
    assert buf[0..0 + |Encode(w, less)|] == (Encode(w, less) + s)[..|Encode(w, less)|];
    ParseEncoded(buf, 0, v, less);
    ParseEncoded(buf, 0, w, less);
    assert r == buf[|Encode(v, less)|..];
  }
}
