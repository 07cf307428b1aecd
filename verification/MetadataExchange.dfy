/**
 The second bencode reader, which only finds where a value ends, and the handling of ut_metadata messages
 (BEP 9, section "extension message") that relies on it: a dictionary followed by raw piece bytes.
 */
module MetadataExchange {
  import opened Bencode
  import opened BencodeFields
  import opened Bytes

  datatype ScanError =
    | EndOfBuffer
    | BadToken
    | UnterminatedInteger
    | UnterminatedContainer
    | BadString
    | BadStringLength
    | TruncatedString

  /** buffer.toString('ascii'): the high bit of every byte is dropped. */
  function AsciiText(s: bytes): (r: bytes)
    ensures |r| == |s|
  {
    seq(|s|, i requires 0 <= i < |s| => s[i] % 128)
  }

  function FindStringEnd(buf: bytes, offset: nat): (r: Result<nat, ScanError>)
    requires offset < |buf|
    ensures r.Ok? ==> offset < r.value <= |buf|
  {
    var colon := IndexOf(buf, offset, 0x3a);
    if colon >= |buf| then Err(BadString)
    else
      match ParseInt(AsciiText(buf[offset..colon]))
      case None => Err(BadStringLength)
      case Some(n) =>
        if n < 0 then Err(BadStringLength)
        else if colon + 1 + n > |buf| then Err(TruncatedString)
        else Ok(colon + 1 + n)
  }

  function FindEnd(buf: bytes, offset: nat): (r: Result<nat, ScanError>)
    ensures r.Ok? ==> offset < r.value <= |buf|
    decreases |buf| - offset, 1
  {
    if offset >= |buf| then Err(EndOfBuffer)
    else if buf[offset] == 0x69 then
      var end := IndexOf(buf, offset + 1, 0x65);
      if end >= |buf| then Err(UnterminatedInteger) else Ok(end + 1)
    else if buf[offset] == 0x6c || buf[offset] == 0x64 then FindContainerEnd(buf, offset + 1)
    else if IsDigit(buf[offset]) then FindStringEnd(buf, offset)
    else Err(BadToken)
  }

  /** From `cursor`, values up to and including the closing 'e'. */
  function FindContainerEnd(buf: bytes, cursor: nat): (r: Result<nat, ScanError>)
    requires cursor <= |buf|
    ensures r.Ok? ==> cursor < r.value <= |buf|
    decreases |buf| - cursor, 2
  {
    if cursor == |buf| then Err(UnterminatedContainer)
    else if buf[cursor] == 0x65 then Ok(cursor + 1)
    else
      match FindEnd(buf, cursor)
      case Err(e) => Err(e)
      case Ok(q) => FindContainerEnd(buf, q)
  }

  /** findBencodeEnd with its helpers: recursion with a local cursor in a loop. */
  method FindBencodeEnd(buf: bytes, offset: nat) returns (r: Result<nat, ScanError>)
    ensures r == FindEnd(buf, offset)
    decreases |buf| - offset, 1
  {
    if offset >= |buf| { return Err(EndOfBuffer); }
    if buf[offset] == 0x69 {
      var end := IndexOf(buf, offset + 1, 0x65);
      return if end >= |buf| then Err(UnterminatedInteger) else Ok(end + 1);
    }
    if buf[offset] == 0x6c || buf[offset] == 0x64 {
      r := FindBencodeContainerEnd(buf, offset);
      return;
    }
    if IsDigit(buf[offset]) { return FindStringEnd(buf, offset); }
    return Err(BadToken);
  }

  method FindBencodeContainerEnd(buf: bytes, offset: nat) returns (r: Result<nat, ScanError>)
    requires offset < |buf|
    ensures r == FindContainerEnd(buf, offset + 1)
    decreases |buf| - offset, 0
  {
    hide FindEnd;
    var cursor := offset + 1;
    while cursor < |buf| && buf[cursor] != 0x65
      invariant offset < cursor <= |buf|
      invariant FindContainerEnd(buf, offset + 1) == FindContainerEnd(buf, cursor)
      decreases |buf| - cursor
    {
      var next := FindBencodeEnd(buf, cursor);
      if next.Err? { return next; }
      cursor := next.value;
    }
    if cursor >= |buf| { return Err(UnterminatedContainer); }
    return Ok(cursor + 1);
  }

  // ---------------------------------------------------------------- the two readers agree

  lemma FindStringEndEncoded(buf: bytes, pos: nat, s: bytes)
    requires At(buf, pos, EncodeString(s))
    ensures IsDigit(buf[pos]) && FindStringEnd(buf, pos) == Ok(pos + |EncodeString(s)|)
  {
    var d := Digits(|s|);
    AtSplit(buf, pos, d + [0x3a], s);
    IndexOfAfter(buf, pos, d, 0x3a);
    AtSplit(buf, pos, d, [0x3a]);
    assert buf[pos] == d[0];
    forall i | 0 <= i < |d| ensures AsciiText(d)[i] == d[i] {
      assert d[i] in d;
    }
    assert AsciiText(d) == d;
    ParseIntOfPrintInt(|s|);
  }

  /** Wherever an encoded value stands in a buffer, the scanner stops exactly behind it. */
  lemma {:induction false} FindEndEncoded(buf: bytes, pos: nat, v: Value, less: (Key, Key) -> bool)
    requires At(buf, pos, Encode(v, less))
    ensures FindEnd(buf, pos) == Ok(pos + |Encode(v, less)|)
    decreases v, 1
  {
    hide FindContainerEnd, EncodeItems, EncodeEntries, ParseInteger, PrintInt, SortedKeys, EncodeString, IndexOf;
    AtHead(buf, pos, Encode(v, less));
    match v
    case Int(n) => ParseIntegerEncoded(buf, pos, n); FindIntegerEncoded(buf, pos, n);
    case Str(s) => FindStringEndEncoded(buf, pos, s);
    case List(items) =>
      var body := EncodeItems(items, less) + [0x65];
      assert Encode(v, less) == [0x6c] + body;
      AtSplit(buf, pos, [0x6c], body);
      FindItemsEnd(buf, pos + 1, items, less);
    case Dict(entries) =>
      var body := EncodeEntries(v, SortedKeys(entries.Keys, less), less) + [0x65];
      assert Encode(v, less) == [0x64] + body;
      AtSplit(buf, pos, [0x64], body);
      FindEntriesEnd(buf, pos + 1, v, SortedKeys(entries.Keys, less), less);
  }

  lemma FindIntegerEncoded(buf: bytes, pos: nat, n: safeInt)
    requires At(buf, pos, [0x69] + PrintInt(n) + [0x65])
    ensures FindEnd(buf, pos) == Ok(pos + |PrintInt(n)| + 2)
  {
    IntegerAt(buf, pos, PrintInt(n));
  }

  lemma {:induction false} FindItemsEnd(buf: bytes, pos: nat, items: seq<Value>, less: (Key, Key) -> bool)
    requires At(buf, pos, EncodeItems(items, less) + [0x65])
    ensures FindContainerEnd(buf, pos) == Ok(pos + |EncodeItems(items, less)| + 1)
    decreases items, 0
  {
    hide FindEnd, Encode;
    if items == [] {
      assert buf[pos] == (EncodeItems(items, less) + [0x65])[0];
    } else {
      ItemsSplit(buf, pos, items, less);
      FindEndEncoded(buf, pos, items[0], less);
      FindItemsEnd(buf, pos + |Encode(items[0], less)|, items[1..], less);
    }
  }

  lemma ContainerStop(buf: bytes, pos: nat)
    requires pos < |buf| && buf[pos] == 0x65
    ensures FindContainerEnd(buf, pos) == Ok(pos + 1)
  {
  }

  lemma ContainerStep(buf: bytes, pos: nat, next: nat)
    requires pos < |buf| && buf[pos] != 0x65 && FindEnd(buf, pos) == Ok(next)
    ensures FindContainerEnd(buf, pos) == FindContainerEnd(buf, next)
  {
  }

  lemma {:induction false} FindEntriesEnd(buf: bytes, pos: nat, d: Value, keys: seq<Key>, less: (Key, Key) -> bool)
    requires d.Dict? && forall k :: k in keys ==> k in d.entries
    requires At(buf, pos, EncodeEntries(d, keys, less) + [0x65])
    ensures FindContainerEnd(buf, pos) == Ok(pos + |EncodeEntries(d, keys, less)| + 1)
    decreases d, 0, |keys|
  {
    hide FindContainerEnd, Encode, EncodeString, ParseByteString, FindStringEnd;
    if keys == [] {
      assert buf[pos] == (EncodeEntries(d, keys, less) + [0x65])[0];
      ContainerStop(buf, pos);
    } else {
      EntriesSplit(buf, pos, d, keys, less);
      var p := pos + |EncodeString(keys[0])|;
      var q := p + |Encode(d.entries[keys[0]], less)|;
      FindStringEndEncoded(buf, pos, keys[0]);
      FindEndEncoded(buf, p, d.entries[keys[0]], less);
      FindEntriesEnd(buf, q, d, keys[1..], less);
      ContainerStep(buf, pos, p);
      ContainerStep(buf, p, q);
    }
  }

  /** For every value and every trailing bytes, both readers put the end of the value in the same place. */
  lemma ReadersAgree(v: Value, rest: bytes, less: (Key, Key) -> bool)
    ensures FindEnd(Encode(v, less) + rest, 0) == Ok(|Encode(v, less)|)
    ensures ParseNext(Encode(v, less) + rest, 0) == Ok((v, |Encode(v, less)|))
  {
    hide Encode, FindEnd, ParseNext;
    var buf := Encode(v, less) + rest;
    assert buf[0..0 + |Encode(v, less)|] == Encode(v, less);
    FindEndEncoded(buf, 0, v, less);
    ParseEncoded(buf, 0, v, less);
  }

  // ---------------------------------------------------------------- any buffer

  /** The field stands for the same number with and without the high bits of its bytes. */
  predicate ReadAlike(buf: bytes, pos: nat) {
    ParseInt(AsciiText(LengthField(buf, pos))) == ParseInt(LengthField(buf, pos))
  }

  /** Each length field that the decoder reads in the value at `pos` is read alike. */
  predicate FieldsAlike(buf: bytes, pos: nat)
    requires pos <= |buf|
  {
    forall p <- Starts(buf, pos) :: p < |buf| && IsDigit(buf[p]) ==> ReadAlike(buf, p)
  }

  /** On a byte string that the decoder accepts, the two readers agree exactly when its length field is read alike. */
  lemma StringReadersAgreeIff(buf: bytes, pos: nat)
    requires pos < |buf| && IsDigit(buf[pos]) && ParseByteString(buf, pos).Ok?
    ensures FindEnd(buf, pos) == Ok(ParseByteString(buf, pos).value.1) <==> ReadAlike(buf, pos)
    ensures IndexOf(buf, pos, 0x3a) < ParseByteString(buf, pos).value.1
  {
    hide ParseInt, AsciiText, IndexOf;
  }

  /**
   On every value that the decoder accepts, in any buffer and at any place, the scanner finds the same end if each
   length field of that value is read alike; what stands inside its byte strings does not matter.
   */
  lemma {:induction false} ReadersAgreeOn(buf: bytes, pos: nat)
    requires pos <= |buf| && ParseNext(buf, pos).Ok? && FieldsAlike(buf, pos)
    ensures FindEnd(buf, pos) == Ok(ParseNext(buf, pos).value.1)
    decreases |buf| - pos, 1
  {
    hide ParseItems, ParseEntries, ParseByteString, FindContainerEnd, FindStringEnd, ReadAlike;
    hide StartsOfItems, StartsOfEntries;
    if buf[pos] == 0x6c {
      ItemsAgreeOn(buf, pos + 1);
    } else if buf[pos] == 0x64 {
      EntriesAgreeOn(buf, pos + 1, map[]);
    } else if IsDigit(buf[pos]) {
      StringReadersAgreeIff(buf, pos);
    }
  }

  lemma {:induction false} ItemsAgreeOn(buf: bytes, pos: nat)
    requires pos <= |buf| && ParseItems(buf, pos).Ok?
    requires forall p <- StartsOfItems(buf, pos) :: p < |buf| && IsDigit(buf[p]) ==> ReadAlike(buf, p)
    ensures FindContainerEnd(buf, pos) == Ok(ParseItems(buf, pos).value.1)
    decreases |buf| - pos, 2
  {
    hide ParseNext, FindEnd, ReadAlike, Starts;
    if buf[pos] != 0x65 {
      ReadersAgreeOn(buf, pos);
      ItemsAgreeOn(buf, ParseNext(buf, pos).value.1);
    }
  }

  lemma {:induction false} EntriesAgreeOn(buf: bytes, pos: nat, acc: map<Key, Value>)
    requires pos <= |buf| && ParseEntries(buf, pos, acc).Ok?
    requires forall p <- StartsOfEntries(buf, pos) :: p < |buf| && IsDigit(buf[p]) ==> ReadAlike(buf, p)
    ensures FindContainerEnd(buf, pos) == Ok(ParseEntries(buf, pos, acc).value.1)
    decreases |buf| - pos, 2
  {
    hide ParseNext, FindEnd, ParseByteString, FindContainerEnd, ReadAlike, Starts;
    if buf[pos] == 0x65 {
      ContainerStop(buf, pos);
    } else {
      var (k, p) := ParseByteString(buf, pos).value;
      var (v, q) := ParseNext(buf, p).value;
      assert pos in StartsOfEntries(buf, pos);
      StringReadersAgreeIff(buf, pos);
      ReadersAgreeOn(buf, p);
      EntriesAgreeOn(buf, q, acc[k := v]);
      ContainerStep(buf, pos, p);
      ContainerStep(buf, p, q);
    }
  }

  /** Decoder and scanner end the value at `p` at the same place. */
  predicate SameEnd(buf: bytes, p: nat) {
    p <= |buf| && ParseNext(buf, p).Ok? && FindEnd(buf, p) == Ok(ParseNext(buf, p).value.1)
  }

  /**
   On every value that the decoder accepts, the two readers agree about the ends of all values and keys inside it,
   itself included, exactly when each of its length fields is read alike.
   */
  lemma ReadersAgreeInsideIff(buf: bytes, pos: nat)
    requires pos <= |buf| && ParseNext(buf, pos).Ok?
    ensures (forall p <- Starts(buf, pos) :: SameEnd(buf, p)) <==> FieldsAlike(buf, pos)
  {
    hide ParseNext, FindEnd, ReadAlike, Starts;
    forall p | p in Starts(buf, pos)
      ensures p <= |buf| && ParseNext(buf, p).Ok? && Starts(buf, p) <= Starts(buf, pos)
    {
      StartsWithin(buf, pos, p);
    }
    if FieldsAlike(buf, pos) {
      forall p | p in Starts(buf, pos) ensures SameEnd(buf, p) { ReadersAgreeOn(buf, p); }
    } else {
      var p :| p in Starts(buf, pos) && p < |buf| && IsDigit(buf[p]) && !ReadAlike(buf, p);
      StringsAccepted(buf, p);
      StringReadersAgreeIff(buf, p);
      assert !SameEnd(buf, p);
    }
  }

  lemma StringsAccepted(buf: bytes, pos: nat)
    requires pos < |buf| && IsDigit(buf[pos]) && ParseNext(buf, pos).Ok?
    ensures ParseByteString(buf, pos).Ok? && ParseByteString(buf, pos).value.1 == ParseNext(buf, pos).value.1
  {
  }

  /** In particular the readers agree on every value without a byte above 127. */
  lemma ReadersAgreeOnAscii(buf: bytes, pos: nat)
    requires pos <= |buf| && ParseNext(buf, pos).Ok?
    requires forall i :: pos <= i < ParseNext(buf, pos).value.1 ==> buf[i] < 128
    ensures FindEnd(buf, pos) == Ok(ParseNext(buf, pos).value.1)
  {
    hide ParseNext, ParseInt, FindEnd, Starts, ParseByteString;
    forall p | p in Starts(buf, pos) && p < |buf| && IsDigit(buf[p]) ensures ReadAlike(buf, p) {
      StartsWithin(buf, pos, p);
      StringsAccepted(buf, p);
      StringReadersAgreeIff(buf, p);
      assert AsciiText(LengthField(buf, p)) == LengthField(buf, p);
    }
    ReadersAgreeOn(buf, pos);
  }

  /** A length field read as 1 by the decoder and as 11 by the scanner, which masks the high bit. */
  const MIXED_FIELD: bytes := [0x31, 0xb1]

  lemma MixedField()
    ensures ParseInt(MIXED_FIELD) == Some(1) && ParseInt(AsciiText(MIXED_FIELD)) == Some(11)
  {
    assert MIXED_FIELD[1..] == [0xb1];
    assert LeadingDigits(MIXED_FIELD[1..], 1) == 1;
    var masked := AsciiText(MIXED_FIELD);
    assert masked == [0x31, 0x31] && masked[1..] == [0x31] && masked[1..][1..] == [];
    assert LeadingDigits(masked[1..], 1) == 11;
  }

  lemma MixedString(buf: bytes, pos: nat)
    requires At(buf, pos, MIXED_FIELD + [0x3a]) && pos + 14 <= |buf|
    ensures IsDigit(buf[pos]) && !ReadAlike(buf, pos)
    ensures ParseByteString(buf, pos) == Ok((buf[pos + 3..pos + 4], pos + 4)) && FindStringEnd(buf, pos) == Ok(pos + 14)
  {
    MixedField();
    IndexOfAfter(buf, pos, MIXED_FIELD, 0x3a);
    AtSplit(buf, pos, MIXED_FIELD, [0x3a]);
    AtHead(buf, pos, MIXED_FIELD);
  }

  /** A buffer that both readers accept, with different ends. */
  lemma ReadersDisagree()
    ensures var buf := MIXED_FIELD + [0x3a] + seq(11, _ => 0);
            && ParseNext(buf, 0).Ok? && ParseNext(buf, 0).value.1 == 4
            && FindEnd(buf, 0) == Ok(14)
  {
    var buf := MIXED_FIELD + [0x3a] + seq(11, _ => 0);
    assert buf[0..3] == MIXED_FIELD + [0x3a];
    MixedString(buf, 0);
  }

  lemma EightBytes(buf: bytes, pos: nat)
    requires At(buf, pos, [0x38, 0x3a]) && pos + 10 < |buf| && buf[pos + 10] == 0x65
    ensures buf[pos] == 0x38 && ParseItems(buf, pos).Ok? && ParseItems(buf, pos).value.1 == pos + 11
  {
    assert [0x38] + [0x3a] == [0x38, 0x3a];
    IndexOfAfter(buf, pos, [0x38], 0x3a);
    AtSplit(buf, pos, [0x38], [0x3a]);
    AtHead(buf, pos, [0x38]);
    assert [0x38][1..] == [] && LeadingDigits([0x38], 0) == 8;
    assert ParseInt([0x38]) == Some(8);
    assert ParseItems(buf, pos + 10) == Ok(([], pos + 11));
  }

  /**
   In a container the scanner can fall into step again: here the field is not read alike, and yet both ends are the
   same.
   */
  lemma ReadersResynchronise()
    ensures var buf := [0x6c] + MIXED_FIELD + [0x3a, 0] + [0x38, 0x3a] + seq(8, _ => 0) + [0x65];
            && !ReadAlike(buf, 1)
            && ParseNext(buf, 0).Ok? && FindEnd(buf, 0) == Ok(ParseNext(buf, 0).value.1)
  {
    hide ReadAlike, ParseByteString, FindStringEnd;
    var buf := [0x6c] + MIXED_FIELD + [0x3a, 0] + [0x38, 0x3a] + seq(8, _ => 0) + [0x65];
    assert |buf| == 16 && buf[15] == 0x65;
    assert buf[1..4] == MIXED_FIELD + [0x3a];
    assert buf[5..7] == [0x38, 0x3a];
    MixedString(buf, 1);
    EightBytes(buf, 5);
    assert ParseNext(buf, 1).Ok? && ParseNext(buf, 1).value.1 == 5;
    assert ParseItems(buf, 1).Ok? && ParseItems(buf, 1).value.1 == 16;
    ContainerStop(buf, 15);
    ContainerStep(buf, 1, 15);
  }

  // ---------------------------------------------------------------- ut_metadata messages

  datatype Action =
    | MetadataData(piece: Option<Value>, data: bytes, totalSize: Option<Value>)
    | MetadataReject(piece: Option<Value>)
    | Ignored

  /** _handleUtMetadataMessage: a decoding error is caught and the message dropped. */
  method HandleUtMetadata(payload: bytes) returns (a: Action)
    ensures a == UtMetadataAction(payload)
  {
    var end := FindBencodeEnd(payload, 0);
    if end.Err? || end.value > |payload| { return Ignored; }
    var dict := Decode(payload[..end.value]);
    if dict.Err? { return Ignored; }
    var msgType, piece := Field(dict.value, Text("msg_type")), Field(dict.value, Text("piece"));
    if msgType == Some(Int(1)) {
      return MetadataData(piece, payload[end.value..], Field(dict.value, Text("total_size")));
    } else if msgType == Some(Int(2)) {
      return MetadataReject(piece);
    }
    return Ignored;
  }

  function UtMetadataAction(payload: bytes): Action {
    match FindEnd(payload, 0)
    case Err(_) => Ignored
    case Ok(end) =>
      match Decode(payload[..end])
      case Err(_) => Ignored
      case Ok(dict) =>
        match Field(dict, Text("msg_type"))
        case Some(Int(1)) => MetadataData(Field(dict, Text("piece")), payload[end..], Field(dict, Text("total_size")))
        case Some(Int(2)) => MetadataReject(Field(dict, Text("piece")))
        case _ => Ignored
  }

  /** A message made of an encoded dictionary and raw bytes is taken apart into exactly those. */
  lemma MessageSplit(d: map<Key, Value>, raw: bytes, less: (Key, Key) -> bool)
    ensures var payload := Encode(Dict(d), less) + raw;
            UtMetadataAction(payload) ==
            match Field(Dict(d), Text("msg_type"))
            case Some(Int(1)) => MetadataData(Field(Dict(d), Text("piece")), raw, Field(Dict(d), Text("total_size")))
            case Some(Int(2)) => MetadataReject(Field(Dict(d), Text("piece")))
            case _ => Ignored
  {
    hide FindEnd, Encode, Decode;
    var e := Encode(Dict(d), less);
    ReadersAgree(Dict(d), raw, less);
    DecodeEncode(Dict(d), less);
    assert (e + raw)[..|e|] == e && (e + raw)[|e|..] == raw;
  }
}
