/** The encoder and the decoder as they run: a shared position, a growing list of buffers, loops. */
module BencodeCodec {
  import opened Bytes
  import opened Bencode

  ghost function Prepend(done: seq<Value>, r: Result<(seq<Value>, nat), Error>): Result<(seq<Value>, nat), Error> {
    match r
    case Err(e) => Err(e)
    case Ok((vs, q)) => Ok((done + vs, q))
  }

  lemma PrependNothing(r: Result<(seq<Value>, nat), Error>)
    ensures Prepend([], r) == r
  {
    match r
    case Ok((vs, _)) => assert [] + vs == vs;
    case Err(_) =>
  }

  /** The items already read, and one more. */
  lemma PrependItem(buf: bytes, pos: nat, done: seq<Value>)
    requires pos < |buf| && buf[pos] != 0x65
    ensures Prepend(done, ParseItems(buf, pos))
         == match ParseNext(buf, pos)
            case Err(e) => Err(e)
            case Ok((v, q)) => Prepend(done + [v], ParseItems(buf, q))
  {
    hide Bencode.ParseNext;
    match ParseNext(buf, pos)
    case Err(_) =>
    case Ok((v, q)) =>
      match ParseItems(buf, q)
      case Ok((vs, _)) => assert done + ([v] + vs) == (done + [v]) + vs;
      case Err(_) =>
  }

  class Decoder {
    const buffer: bytes
    var position: nat

    constructor (buffer: bytes)
      ensures this.buffer == buffer && position == 0
    {
      this.buffer := buffer;
      position := 0;
    }

    method Scan(from: nat, marker: byte) returns (at: nat)
      requires from <= |buffer|
      ensures at == IndexOf(buffer, from, marker)
    {
      at := from;
      while at < |buffer| && buffer[at] != marker
        invariant from <= at <= |buffer|
        invariant IndexOf(buffer, from, marker) == IndexOf(buffer, at, marker)
      {
        at := at + 1;
      }
    }

    method ParseInteger() returns (r: Result<Value, Error>)
      requires position < |buffer|
      modifies this`position
      ensures position <= |buffer|
      ensures match Bencode.ParseInteger(buffer, old(position))
              case Ok((v, q)) => r == Ok(v) && position == q
              case Err(e) => r == Err(e)
    {
      position := position + 1;
      var end := Scan(position, 0x65);
      if end >= |buffer| { return Err(MissingEnd); }
      var text := buffer[position..end];
      if text == [] { return Err(EmptyInteger); }
      if (text[0] == 0x30 && |text| > 1) || (text[0] == 0x2d && |text| > 1 && text[1] == 0x30) {
        return Err(LeadingZero);
      }
      position := end + 1;
      match ParseInt(text)
      case None => return Err(NotANumber);
      case Some(n) => if -MAX_SAFE <= n <= MAX_SAFE { return Ok(Int(n)); } else { return Err(UnsafeInteger); }
    }

    method ParseByteString() returns (r: Result<bytes, Error>)
      requires position < |buffer|
      modifies this`position
      ensures position <= |buffer|
      ensures match Bencode.ParseByteString(buffer, old(position))
              case Ok((s, q)) => r == Ok(s) && position == q
              case Err(e) => r == Err(e)
    {
      var colon := Scan(position, 0x3a);
      if colon >= |buffer| { return Err(MissingColon); }
      var text := buffer[position..colon];
      if text == [] { return Err(BadLength); }
      if text[0] == 0x30 && |text| > 1 { return Err(LeadingZero); }
      var length := ParseInt(text);
      if length.None? || length.value < 0 { return Err(BadLength); }
      position := colon + 1;
      var end := position + length.value;
      if end > |buffer| { return Err(LengthExceedsBuffer); }
      var content := buffer[position..end];
      position := end;
      return Ok(content);
    }

    method ParseList() returns (r: Result<Value, Error>)
      requires position < |buffer|
      modifies this`position
      ensures position <= |buffer|
      ensures match ParseItems(buffer, old(position) + 1)
              case Ok((vs, q)) => r == Ok(List(vs)) && position == q
              case Err(e) => r == Err(e)
      decreases |buffer| - position, 0
    {
      hide Bencode.ParseNext;
      position := position + 1;
      ghost var start := position;
      var list: seq<Value> := [];
      PrependNothing(ParseItems(buffer, start));
      while position < |buffer| && buffer[position] != 0x65
        invariant start <= position <= |buffer|
        invariant ParseItems(buffer, start) == Prepend(list, ParseItems(buffer, position))
        decreases |buffer| - position
      {
        hide ParseItems;
        PrependItem(buffer, position, list);
        var v := ParseNext();
        if v.Err? { return Err(v.error); }
        list := list + [v.value];
      }
      if position >= |buffer| { return Err(MissingEnd); }
      position := position + 1;
      assert list + [] == list;
      return Ok(List(list));
    }

    method ParseDictionary() returns (r: Result<Value, Error>)
      requires position < |buffer|
      modifies this`position
      ensures position <= |buffer|
      ensures match ParseEntries(buffer, old(position) + 1, map[])
              case Ok((m, q)) => r == Ok(Dict(m)) && position == q
              case Err(e) => r == Err(e)
      decreases |buffer| - position, 0
    {
      hide Bencode.ParseNext, Bencode.ParseByteString;
      position := position + 1;
      ghost var start := position;
      var dict: map<Key, Value> := map[];
      while position < |buffer| && buffer[position] != 0x65
        invariant start <= position <= |buffer|
        invariant ParseEntries(buffer, start, map[]) == ParseEntries(buffer, position, dict)
        decreases |buffer| - position
      {
        if !IsDigit(buffer[position]) { return Err(KeyNotAString); }
        var key := ParseByteString();
        if key.Err? { return Err(key.error); }
        if position >= |buffer| || buffer[position] == 0x65 { return Err(KeyWithoutValue); }
        var v := ParseNext();
        if v.Err? { return Err(v.error); }
        dict := dict[key.value := v.value];
      }
      if position >= |buffer| { return Err(MissingEnd); }
      position := position + 1;
      return Ok(Dict(dict));
    }

    method ParseNext() returns (r: Result<Value, Error>)
      requires position <= |buffer|
      modifies this`position
      ensures position <= |buffer|
      ensures match Bencode.ParseNext(buffer, old(position))
              case Ok((v, q)) => r == Ok(v) && position == q
              case Err(e) => r == Err(e)
      decreases |buffer| - position, 1
    {
      hide Bencode.ParseItems, Bencode.ParseEntries, Bencode.ParseInteger, Bencode.ParseByteString;
      if position >= |buffer| { return Err(UnexpectedEnd); }
      var b := buffer[position];
      if b == 0x69 {
        r := ParseInteger();
      } else if b == 0x6c {
        r := ParseList();
      } else if b == 0x64 {
        r := ParseDictionary();
      } else if IsDigit(b) {
        var s := ParseByteString();
        r := if s.Ok? then Ok(Str(s.value)) else Err(s.error);
      } else {
        r := Err(UnexpectedByte);
      }
    }
  }

  method DecodeBuffer(buffer: bytes) returns (r: Result<Value, Error>)
    ensures r == Decode(buffer)
  {
    var d := new Decoder(buffer);
    r := d.ParseNext();
    if r.Ok? && d.position != |buffer| {
      r := Err(TrailingData);
    }
  }

  class Encoder {
    const less: (Key, Key) -> bool
    var buffers: seq<bytes>

    constructor (less: (Key, Key) -> bool)
      ensures this.less == less && buffers == []
    {
      this.less := less;
      buffers := [];
    }

    method Push(b: bytes)
      modifies this`buffers
      ensures Flatten(buffers) == old(Flatten(buffers)) + b
    {
      FlattenSnoc(buffers, b);
      buffers := buffers + [b];
    }

    method EncodeByteString(s: bytes)
      modifies this`buffers
      ensures Flatten(buffers) == old(Flatten(buffers)) + EncodeString(s)
    {
      ghost var before := Flatten(buffers);
      Push(Digits(|s|) + [0x3a]);
      Push(s);
      assert before + (Digits(|s|) + [0x3a]) + s == before + EncodeString(s);
    }

    method EncodeList(items: seq<Value>)
      requires StrictTotalOrder(less)
      modifies this`buffers
      ensures Flatten(buffers) == old(Flatten(buffers)) + ([0x6c] + EncodeItems(items, less) + [0x65])
      decreases items, 0
    {
      hide Encode;
      Push([0x6c]);
      ghost var start := Flatten(buffers);
      for i := 0 to |items|
        invariant Flatten(buffers) + EncodeItems(items[i..], less) == start + EncodeItems(items, less)
      {
        ghost var before := Flatten(buffers);
        EncodeValue(items[i]);
        assert items[i..][1..] == items[i + 1..];
        ghost var e, rest := Encode(items[i], less), EncodeItems(items[i + 1..], less);
        assert before + (e + rest) == (before + e) + rest;
      }
      Push([0x65]);
      Framed(old(Flatten(buffers)), [0x6c], EncodeItems(items, less), [0x65]);
    }

    method EncodeEntry(d: Value, ghost keys: seq<Key>, key: Key)
      requires d.Dict? && StrictTotalOrder(less)
      requires keys != [] && key == keys[0] && forall k :: k in keys ==> k in d.entries
      modifies this`buffers
      ensures Flatten(buffers) + EncodeEntries(d, keys[1..], less)
           == old(Flatten(buffers)) + EncodeEntries(d, keys, less)
      decreases d, 0, 0
    {
      hide Encode, EncodeString;
      ghost var before := Flatten(buffers);
      EncodeByteString(key);
      EncodeValue(d.entries[key]);
      ghost var k, v, rest := EncodeString(key), Encode(d.entries[key], less), EncodeEntries(d, keys[1..], less);
      assert before + (k + v + rest) == ((before + k) + v) + rest;
    }

    method EncodeDictionary(d: Value)
      requires d.Dict? && StrictTotalOrder(less)
      modifies this`buffers
      ensures Flatten(buffers) == old(Flatten(buffers)) + Encode(d, less)
      decreases d, 0, 1
    {
      hide Encode, EncodeString;
      Push([0x64]);
      var keys := SortKeys(d.entries.Keys, less);
      ghost var start := Flatten(buffers);
      for i := 0 to |keys|
        invariant Flatten(buffers) + EncodeEntries(d, keys[i..], less) == start + EncodeEntries(d, keys, less)
      {
        EncodeEntry(d, keys[i..], keys[i]);
        assert keys[i..][1..] == keys[i + 1..];
      }
      Push([0x65]);
      Framed(old(Flatten(buffers)), [0x64], EncodeEntries(d, keys, less), [0x65]);
      EncodeDict(d, less);
    }

    method EncodeValue(v: Value)
      requires StrictTotalOrder(less)
      modifies this`buffers
      ensures Flatten(buffers) == old(Flatten(buffers)) + Encode(v, less)
      decreases v, 1
    {
      match v
      case Int(n) => Push([0x69] + PrintInt(n) + [0x65]);
      case Str(s) => EncodeByteString(s);
      case List(items) => EncodeList(items);
      case Dict(_) => EncodeDictionary(v);
    }
  }

  lemma Framed(before: bytes, open: bytes, body: bytes, close: bytes)
    ensures before + open + body + close == before + (open + body + close)
    ensures forall b: bytes :: b + [] == b
  {
  }

  lemma EncodeDict(d: Value, less: (Key, Key) -> bool)
    requires d.Dict?
    ensures Encode(d, less) == [0x64] + EncodeEntries(d, SortedKeys(d.entries.Keys, less), less) + [0x65]
  {
  }

  /** Object.keys(obj).sort(...): the keys arrive in any order and leave sorted. */
  method SortKeys(s: set<Key>, less: (Key, Key) -> bool) returns (keys: seq<Key>)
    requires StrictTotalOrder(less)
    ensures keys == SortedKeys(s, less)
  {
    keys := [];
    var left := s;
    while left != {}
      invariant left <= s
      invariant forall k :: k in keys <==> k in s - left
      invariant Ascending(keys, less)
      decreases left
    {
      var k :| k in left;
      InsertAscending(k, keys, less);
      keys := Insert(k, keys, less);
      left := left - {k};
    }
    AscendingUnique(keys, SortedKeys(s, less), less);
  }

  method EncodeBuffer(v: Value, less: (Key, Key) -> bool) returns (r: bytes)
    requires StrictTotalOrder(less)
    ensures r == Encode(v, less)
  {
    var e := new Encoder(less);
    e.EncodeValue(v);
    r := Flatten(e.buffers);
  }
}
