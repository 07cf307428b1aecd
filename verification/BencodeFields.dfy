/** Where the decoder reads numbers, length fields and keys, and what the encoder would have written there. */
module BencodeFields {
  import opened Bencode
  import opened Bytes

  // ---------------------------------------------------------------- where the decoder reads

  /** The length field of a string at `pos`: what stands before the next ':'. */
  function LengthField(buf: bytes, pos: nat): bytes {
    if pos <= |buf| then buf[pos..IndexOf(buf, pos, 0x3a)] else []
  }

  /** Where the decoder begins to read a value or a key, when it reads the value at `pos`. */
  function Starts(buf: bytes, pos: nat): set<nat>
    requires pos <= |buf|
    decreases |buf| - pos, 1
  {
    {pos} +
    if pos == |buf| then {}
    else if buf[pos] == 0x6c then StartsOfItems(buf, pos + 1)
    else if buf[pos] == 0x64 then StartsOfEntries(buf, pos + 1)
    else {}
  }

  function StartsOfItems(buf: bytes, pos: nat): set<nat>
    requires pos <= |buf|
    decreases |buf| - pos, 2
  {
    if pos == |buf| || buf[pos] == 0x65 then {}
    else
      match ParseNext(buf, pos)
      case Err(_) => Starts(buf, pos)
      case Ok((_, q)) => Starts(buf, pos) + StartsOfItems(buf, q)
  }

  function StartsOfEntries(buf: bytes, pos: nat): set<nat>
    requires pos <= |buf|
    decreases |buf| - pos, 2
  {
    if pos == |buf| || !IsDigit(buf[pos]) then {}
    else
      match ParseByteString(buf, pos)
      case Err(_) => {pos}
      case Ok((_, p)) =>
        match ParseNext(buf, p)
        case Err(_) => {pos} + Starts(buf, p)
        case Ok((_, q)) => {pos} + Starts(buf, p) + StartsOfEntries(buf, q)
  }

  /** The value at `p` is read, and read within the bytes up to `end`. */
  ghost predicate ReadWithin(buf: bytes, p: nat, end: nat) {
    p <= |buf| && ParseNext(buf, p).Ok? && ParseNext(buf, p).value.1 <= end
  }

  /**
   What is read inside a value is itself a value that can be read, with nothing read there that is not read inside the
   whole.
   */
  lemma {:induction false} StartsWithin(buf: bytes, pos: nat, p: nat)
    requires pos <= |buf| && ParseNext(buf, pos).Ok? && p in Starts(buf, pos)
    ensures pos <= p && ReadWithin(buf, p, ParseNext(buf, pos).value.1) && Starts(buf, p) <= Starts(buf, pos)
    decreases |buf| - pos, 1
  {
    hide ParseItems, ParseEntries, ParseInteger, ParseByteString, StartsOfItems, StartsOfEntries;
    if p != pos {
      if buf[pos] == 0x6c {
        ItemsWithin(buf, pos + 1, p);
      } else {
        EntriesWithin(buf, pos + 1, map[], p);
      }
    }
  }

  lemma {:induction false} ItemsWithin(buf: bytes, pos: nat, p: nat)
    requires pos <= |buf| && ParseItems(buf, pos).Ok? && p in StartsOfItems(buf, pos)
    ensures pos <= p && ReadWithin(buf, p, ParseItems(buf, pos).value.1) && Starts(buf, p) <= StartsOfItems(buf, pos)
    decreases |buf| - pos, 2
  {
    hide ParseNext, Starts;
    if p in Starts(buf, pos) {
      StartsWithin(buf, pos, p);
    } else {
      ItemsWithin(buf, ParseNext(buf, pos).value.1, p);
    }
  }

  lemma {:induction false} EntriesWithin(buf: bytes, pos: nat, acc: map<Key, Value>, p: nat)
    requires pos <= |buf| && ParseEntries(buf, pos, acc).Ok? && p in StartsOfEntries(buf, pos)
    ensures pos <= p && ReadWithin(buf, p, ParseEntries(buf, pos, acc).value.1)
    ensures Starts(buf, p) <= StartsOfEntries(buf, pos)
    decreases |buf| - pos, 2
  {
    hide ParseNext, ParseByteString, Starts;
    var (k, at) := ParseByteString(buf, pos).value;
    var (v, q) := ParseNext(buf, at).value;
    if p == pos {
      KeyReads(buf, pos);
    } else if p in Starts(buf, at) {
      StartsWithin(buf, at, p);
    } else {
      EntriesWithin(buf, q, acc[k := v], p);
    }
  }

  /** A key is read like any byte string. */
  lemma KeyReads(buf: bytes, pos: nat)
    requires pos < |buf| && IsDigit(buf[pos]) && ParseByteString(buf, pos).Ok?
    ensures ParseNext(buf, pos).Ok? && ParseNext(buf, pos).value.1 == ParseByteString(buf, pos).value.1
    ensures Starts(buf, pos) == {pos}
  {
  }

  // ---------------------------------------------------------------- plain numbers

  /** Decimal digits without a leading zero: no sign, no blank, nothing behind the digits. */
  predicate PlainNat(t: bytes) {
    t != [] && (forall b <- t :: IsDigit(b)) && (t[0] == 0x30 ==> |t| == 1)
  }

  /** The same with a minus sign, but for zero. */
  predicate PlainInt(t: bytes) {
    PlainNat(t) || (t != [] && t[0] == 0x2d && PlainNat(t[1..]) && t[1] != 0x30)
  }

  lemma {:induction false} LeadingDigitsSnoc(t: bytes, d: byte, acc: nat)
    requires IsDigit(d) && forall b <- t :: IsDigit(b)
    ensures LeadingDigits(t + [d], acc) == 10 * LeadingDigits(t, acc) + (d - 0x30)
  {
    if t == [] {
      assert ([] + [d])[1..] == [];
    } else {
      assert (t + [d])[1..] == t[1..] + [d];
      assert IsDigit(t[0]);
      LeadingDigitsSnoc(t[1..], d, 10 * acc + (t[0] - 0x30));
    }
  }

  /** Plain digits are the text of the number they stand for. */
  lemma {:induction false} PlainNatText(t: bytes)
    requires PlainNat(t)
    ensures t == Digits(LeadingDigits(t, 0)) && (t[0] != 0x30 ==> 0 < LeadingDigits(t, 0))
  {
    var front, d := t[..|t| - 1], t[|t| - 1];
    assert t == front + [d];
    LeadingDigitsSnoc(front, d, 0);
    if front != [] {
      assert front[0] == t[0];
      PlainNatText(front);
    }
  }

  /** A number text reads as `n` and is plain exactly when it is the text the encoder writes for `n`. */
  lemma PlainIntIff(t: bytes, n: int)
    requires ParseInt(t) == Some(n)
    ensures PlainInt(t) <==> t == PrintInt(n)
  {
    if PlainNat(t) {
      PlainNatText(t);
      ParseIntOfPrintInt(LeadingDigits(t, 0));
    } else if PlainInt(t) {
      var m: int := LeadingDigits(t[1..], 0);
      PlainNatText(t[1..]);
      assert t == [0x2d] + t[1..];
      ParseIntOfPrintInt(-m);
    }
    PrintPlain(n);
  }

  lemma PrintPlain(n: int)
    ensures PlainInt(PrintInt(n)) && (n >= 0 ==> PlainNat(PrintInt(n)))
  {
    if n < 0 { assert PrintInt(n)[1..] == Digits(-n); }
  }

  lemma PlainNatIff(t: bytes, n: nat)
    requires ParseInt(t) == Some(n)
    ensures PlainNat(t) <==> t == Digits(n)
  {
    if PlainNat(t) {
      PlainNatText(t);
      ParseIntOfPrintInt(LeadingDigits(t, 0));
    }
    PrintPlain(n);
  }

  // ---------------------------------------------------------------- what the encoder would have written

  /** The keys of the entries from `pos` on, in the order in which they stand there, repeated ones included. */
  function KeysAt(buf: bytes, pos: nat): seq<Key>
    requires pos <= |buf|
    decreases |buf| - pos
  {
    if pos == |buf| || !IsDigit(buf[pos]) then []
    else
      match ParseByteString(buf, pos)
      case Err(_) => []
      case Ok((k, p)) =>
        match ParseNext(buf, p)
        case Err(_) => [k]
        case Ok((_, q)) => [k] + KeysAt(buf, q)
  }

  /** The text between the 'i' at `pos` and the next 'e'. */
  function IntegerField(buf: bytes, pos: nat): bytes {
    if pos < |buf| then buf[pos + 1..IndexOf(buf, pos + 1, 0x65)] else []
  }

  /**
   What stands at `p` is as the encoder writes it: a plain number, a plain length, keys in strictly ascending order.
   */
  ghost predicate PlainAt(buf: bytes, p: nat, less: (Key, Key) -> bool) {
    p < |buf| ==>
      && (buf[p] == 0x69 ==> PlainInt(IntegerField(buf, p)))
      && (buf[p] == 0x64 ==> Ascending(KeysAt(buf, p + 1), less))
      && (IsDigit(buf[p]) ==> PlainNat(LengthField(buf, p)))
  }

  /** The value at `pos` and everything read inside it is as the encoder writes it. */
  ghost predicate Canonical(buf: bytes, pos: nat, less: (Key, Key) -> bool)
    requires pos <= |buf|
  {
    forall p <- Starts(buf, pos) :: PlainAt(buf, p, less)
  }

  lemma IntegerIff(buf: bytes, pos: nat, less: (Key, Key) -> bool)
    requires pos < |buf| && buf[pos] == 0x69 && ParseInteger(buf, pos).Ok?
    ensures At(buf, pos, Encode(ParseInteger(buf, pos).value.0, less)) <==> PlainInt(IntegerField(buf, pos))
  {
    hide ParseInt, PlainInt, PrintInt, At;
    var v, t := ParseInteger(buf, pos).value.0, IntegerField(buf, pos);
    var text := PrintInt(v.n);
    assert Encode(v, less) == [0x69] + text + [0x65];
    IntegerText(buf, pos);
    hide ParseInteger, Encode, IntegerField;
    PlainIntIff(t, v.n);
    if At(buf, pos, [0x69] + text + [0x65]) {
      PrintedForm(v.n);
      IntegerAt(buf, pos, text);
      FieldIs(buf, pos, text);
    }
  }

  /** The bytes of an integer that is read. */
  lemma IntegerText(buf: bytes, pos: nat)
    requires pos < |buf| && buf[pos] == 0x69 && ParseInteger(buf, pos).Ok?
    ensures var v, t := ParseInteger(buf, pos).value.0, IntegerField(buf, pos);
            v.Int? && ParseInt(t) == Some(v.n) && At(buf, pos, [0x69] + t + [0x65])
  {
    hide ParseInt, At;
    var t := IntegerField(buf, pos);
    var q := pos + 1 + |t|;
    HeadAt(buf, pos, [0x69]);
    HeadAt(buf, q, [0x65]);
    SliceAt(buf, pos + 1, t);
    Assoc([0x69], t, [0x65]);
    AtSplit(buf, pos + 1, t, [0x65]);
    AtSplit(buf, pos, [0x69], t + [0x65]);
  }

  lemma HeadAt(buf: bytes, pos: nat, c: bytes)
    requires pos < |buf| && c == [buf[pos]]
    ensures At(buf, pos, c)
  {
  }

  lemma SliceAt(buf: bytes, pos: nat, t: bytes)
    requires pos + |t| <= |buf| && t == buf[pos..pos + |t|]
    ensures At(buf, pos, t)
  {
  }

  lemma FieldIs(buf: bytes, pos: nat, text: bytes)
    requires pos + 1 + |text| < |buf| && IndexOf(buf, pos + 1, 0x65) == pos + 1 + |text|
    ensures IntegerField(buf, pos) == buf[pos + 1..pos + 1 + |text|]
  {
  }

  lemma StringIff(buf: bytes, pos: nat)
    requires pos < |buf| && IsDigit(buf[pos]) && ParseByteString(buf, pos).Ok?
    ensures At(buf, pos, EncodeString(ParseByteString(buf, pos).value.0)) <==> PlainNat(LengthField(buf, pos))
  {
    hide ParseInt, PlainNat, At, Digits;
    var s, t := ParseByteString(buf, pos).value.0, LengthField(buf, pos);
    var d := Digits(|s|);
    assert EncodeString(s) == d + [0x3a] + s;
    StringText(buf, pos);
    hide ParseByteString, EncodeString, LengthField;
    PlainNatIff(t, |s|);
    if At(buf, pos, d + [0x3a] + s) {
      AtSplit(buf, pos, d + [0x3a], s);
      LengthIs(buf, pos, d);
    }
  }

  /** The bytes of a string that is read. */
  lemma StringText(buf: bytes, pos: nat)
    requires pos < |buf| && IsDigit(buf[pos]) && ParseByteString(buf, pos).Ok?
    ensures var s, t := ParseByteString(buf, pos).value.0, LengthField(buf, pos);
            ParseInt(t) == Some(|s|) && At(buf, pos, t + [0x3a] + s)
  {
    hide ParseInt, At;
    var s, t := ParseByteString(buf, pos).value.0, LengthField(buf, pos);
    SliceAt(buf, pos, t);
    HeadAt(buf, pos + |t|, [0x3a]);
    SliceAt(buf, pos + |t| + 1, s);
    AtSplit(buf, pos, t, [0x3a]);
    AtSplit(buf, pos, t + [0x3a], s);
  }

  lemma LengthIs(buf: bytes, pos: nat, d: bytes)
    requires At(buf, pos, d + [0x3a]) && forall b <- d :: IsDigit(b)
    ensures LengthField(buf, pos) == d
  {
    IndexOfAfter(buf, pos, d, 0x3a);
    AtSplit(buf, pos, d, [0x3a]);
  }

  lemma {:induction false} KeysRead(buf: bytes, pos: nat, acc: map<Key, Value>)
    requires pos <= |buf| && ParseEntries(buf, pos, acc).Ok?
    ensures forall k :: k in ParseEntries(buf, pos, acc).value.0 <==> k in acc || k in KeysAt(buf, pos)
    ensures forall k :: k in acc && k !in KeysAt(buf, pos) ==> ParseEntries(buf, pos, acc).value.0[k] == acc[k]
    decreases |buf| - pos
  {
    hide ParseNext, ParseByteString;
    if buf[pos] != 0x65 {
      var (k, p) := ParseByteString(buf, pos).value;
      var (v, q) := ParseNext(buf, p).value;
      KeysRead(buf, q, acc[k := v]);
    }
  }

  lemma {:induction false} KeysOfEncoded(buf: bytes, pos: nat, d: Value, keys: seq<Key>, less: (Key, Key) -> bool)
    requires d.Dict? && forall k :: k in keys ==> k in d.entries
    requires At(buf, pos, EncodeEntries(d, keys, less) + [0x65])
    ensures KeysAt(buf, pos) == keys
    decreases |keys|
  {
    hide ParseNext, ParseByteString, Encode, EncodeString;
    if keys == [] {
      AtHead(buf, pos, EncodeEntries(d, keys, less) + [0x65]);
    } else {
      EntriesSplit(buf, pos, d, keys, less);
      var p := pos + |EncodeString(keys[0])|;
      ParseEncoded(buf, p, d.entries[keys[0]], less);
      KeysOfEncoded(buf, p + |Encode(d.entries[keys[0]], less)|, d, keys[1..], less);
    }
  }

  /**
   The bytes of a value that the decoder accepts are those the encoder writes for it exactly when its numbers and
   lengths are plain and the keys of its dictionaries strictly ascend.
   */
  lemma {:induction false} CanonicalIff(buf: bytes, pos: nat, less: (Key, Key) -> bool)
    requires StrictTotalOrder(less) && pos <= |buf| && ParseNext(buf, pos).Ok?
    ensures At(buf, pos, Encode(ParseNext(buf, pos).value.0, less)) <==> Canonical(buf, pos, less)
    decreases |buf| - pos, 1
  {
    hide ParseInteger, ParseByteString, ParseItems, ParseEntries, Starts, PlainAt, Canonical, At;
    hide PlainInt, PlainNat, KeysAt, EncodeItems, EncodeEntries, PrintInt, EncodeString, Ascending;
    CanonicalParts(buf, pos, less);
    if buf[pos] == 0x69 {
      IntegerIff(buf, pos, less);
    } else if buf[pos] == 0x6c {
      OpenedAt(buf, pos, EncodeItems(ParseItems(buf, pos + 1).value.0, less));
      ItemsIff(buf, pos + 1, less);
    } else if buf[pos] == 0x64 {
      var m := ParseEntries(buf, pos + 1, map[]).value.0;
      OpenedAt(buf, pos, EncodeEntries(Dict(m), SortedKeys(m.Keys, less), less));
      DictionaryIff(buf, pos + 1, less);
    } else {
      StringIff(buf, pos);
    }
  }

  lemma OpenedAt(buf: bytes, pos: nat, body: bytes)
    requires pos < |buf|
    ensures At(buf, pos, [buf[pos]] + body + [0x65]) <==> At(buf, pos + 1, body + [0x65])
  {
    Assoc([buf[pos]], body, [0x65]);
    AtSplit(buf, pos, [buf[pos]], body + [0x65]);
  }

  /** What canonical means for each kind of value. */
  lemma CanonicalParts(buf: bytes, pos: nat, less: (Key, Key) -> bool)
    requires pos < |buf|
    ensures buf[pos] == 0x69 ==> (Canonical(buf, pos, less) <==> PlainInt(IntegerField(buf, pos)))
    ensures IsDigit(buf[pos]) ==> (Canonical(buf, pos, less) <==> PlainNat(LengthField(buf, pos)))
    ensures buf[pos] == 0x6c ==>
              (Canonical(buf, pos, less) <==> forall p <- StartsOfItems(buf, pos + 1) :: PlainAt(buf, p, less))
    ensures buf[pos] == 0x64 ==>
              (Canonical(buf, pos, less) <==>
               && Ascending(KeysAt(buf, pos + 1), less)
               && forall p <- StartsOfEntries(buf, pos + 1) :: PlainAt(buf, p, less))
  {
    hide PlainInt, PlainNat, IntegerField, LengthField, Ascending, KeysAt, StartsOfItems, StartsOfEntries;
    assert pos in Starts(buf, pos);
  }

  lemma {:induction false} ItemsIff(buf: bytes, pos: nat, less: (Key, Key) -> bool)
    requires StrictTotalOrder(less) && pos <= |buf| && ParseItems(buf, pos).Ok?
    ensures At(buf, pos, EncodeItems(ParseItems(buf, pos).value.0, less) + [0x65])
       <==> forall p <- StartsOfItems(buf, pos) :: PlainAt(buf, p, less)
    decreases |buf| - pos, 2
  {
    hide ParseNext, Starts, PlainAt, Encode, At;
    if buf[pos] == 0x65 {
      EndAt(buf, pos);
    } else {
      var (v, m) := ParseNext(buf, pos).value;
      var rest := ParseItems(buf, m).value.0;
      assert ([v] + rest)[1..] == rest;
      Assoc(Encode(v, less), EncodeItems(rest, less), [0x65]);
      AtSplit(buf, pos, Encode(v, less), EncodeItems(rest, less) + [0x65]);
      CanonicalIff(buf, pos, less);
      ItemsIff(buf, m, less);
      if At(buf, pos, Encode(v, less)) { ParseEncoded(buf, pos, v, less); }
    }
  }

  lemma EndAt(buf: bytes, pos: nat)
    requires pos < |buf| && buf[pos] == 0x65
    ensures At(buf, pos, [] + [0x65])
  {
  }

  /**
   The entries up to the closing 'e' are those of their dictionary, sorted, exactly when its keys ascend and all is
   plain.
   */
  lemma {:induction false} DictionaryIff(buf: bytes, pos: nat, less: (Key, Key) -> bool)
    requires StrictTotalOrder(less) && pos <= |buf| && ParseEntries(buf, pos, map[]).Ok?
    ensures var m := ParseEntries(buf, pos, map[]).value.0;
            At(buf, pos, EncodeEntries(Dict(m), SortedKeys(m.Keys, less), less) + [0x65])
            <==> Ascending(KeysAt(buf, pos), less) && forall p <- StartsOfEntries(buf, pos) :: PlainAt(buf, p, less)
    decreases |buf| - pos, 3
  {
    hide ParseEntries, StartsOfEntries, PlainAt, At, EncodeEntries, KeysAt;
    var m := ParseEntries(buf, pos, map[]).value.0;
    var keys := SortedKeys(m.Keys, less);
    KeysRead(buf, pos, map[]);
    if At(buf, pos, EncodeEntries(Dict(m), keys, less) + [0x65]) {
      KeysOfEncoded(buf, pos, Dict(m), keys, less);
    }
    if Ascending(KeysAt(buf, pos), less) {
      AscendingUnique(KeysAt(buf, pos), keys, less);
      EntriesIff(buf, pos, map[], less);
    }
  }

  lemma {:induction false} EntriesIff(buf: bytes, pos: nat, acc: map<Key, Value>, less: (Key, Key) -> bool)
    requires StrictTotalOrder(less) && pos <= |buf| && ParseEntries(buf, pos, acc).Ok?
    requires Ascending(KeysAt(buf, pos), less)
    ensures var d := Dict(ParseEntries(buf, pos, acc).value.0);
            && (forall k :: k in KeysAt(buf, pos) ==> k in d.entries)
            && (At(buf, pos, EncodeEntries(d, KeysAt(buf, pos), less) + [0x65])
                <==> forall p <- StartsOfEntries(buf, pos) :: PlainAt(buf, p, less))
    decreases |buf| - pos, 2
  {
    hide ParseNext, ParseByteString, Starts, Encode, At, EncodeString, PlainNat;
    KeysRead(buf, pos, acc);
    if buf[pos] == 0x65 {
      EndAt(buf, pos);
    } else {
      var d := Dict(ParseEntries(buf, pos, acc).value.0);
      var (k, p) := ParseByteString(buf, pos).value;
      var (v, q) := ParseNext(buf, p).value;
      var keys := KeysAt(buf, q);
      assert KeysAt(buf, pos) == [k] + keys;
      FirstBelow(k, keys, less);
      KeysRead(buf, q, acc[k := v]);
      EntriesIff(buf, q, acc[k := v], less);
      assert d.entries[k] == v;
      assert StartsOfEntries(buf, pos) == {pos} + Starts(buf, p) + StartsOfEntries(buf, q);
      assert PlainAt(buf, pos, less) <==> PlainNat(LengthField(buf, pos));
      hide ParseEntries, StartsOfEntries, PlainAt, KeysAt, EncodeEntries, Ascending;
      EntryIff(buf, pos, k, p, v, q, EncodeEntries(d, keys, less) + [0x65], less);
      EncodeEntriesStep(d, k, keys, less);
    }
  }

  /** One entry, and `rest` behind it. */
  lemma {:induction false} EntryIff(buf: bytes, pos: nat, k: Key, p: nat, v: Value, q: nat, rest: bytes,
                                    less: (Key, Key) -> bool)
    requires StrictTotalOrder(less) && pos < p <= |buf| && IsDigit(buf[pos])
    requires ParseByteString(buf, pos) == Ok((k, p)) && ParseNext(buf, p) == Ok((v, q))
    ensures At(buf, pos, EncodeString(k) + (Encode(v, less) + rest))
       <==> PlainNat(LengthField(buf, pos)) && Canonical(buf, p, less) && At(buf, q, rest)
    decreases |buf| - pos, 1
  {
    hide ParseNext, ParseByteString, Canonical, Encode, At, EncodeString, PlainNat;
    CanonicalIff(buf, p, less);
    StringIff(buf, pos);
    var a, b := EncodeString(k), Encode(v, less);
    AtSplit(buf, pos, a, b + rest);
    AtSplit(buf, pos + |a|, b, rest);
    if At(buf, pos, a) { ParseByteStringEncoded(buf, pos, k); }
    if At(buf, p, b) { ParseEncoded(buf, p, v, less); }
  }

  lemma FirstBelow(k: Key, keys: seq<Key>, less: (Key, Key) -> bool)
    requires StrictTotalOrder(less) && Ascending([k] + keys, less)
    ensures k !in keys && Ascending(keys, less)
  {
    assert ([k] + keys)[1..] == keys;
    forall i | 0 <= i < |keys| ensures keys[i] != k {
      assert less(([k] + keys)[0], ([k] + keys)[i + 1]);
    }
  }

  lemma EncodeEntriesStep(d: Value, k: Key, keys: seq<Key>, less: (Key, Key) -> bool)
    requires d.Dict? && forall x :: x in [k] + keys ==> x in d.entries
    ensures EncodeEntries(d, [k] + keys, less) + [0x65]
         == EncodeString(k) + (Encode(d.entries[k], less) + (EncodeEntries(d, keys, less) + [0x65]))
  {
    assert ([k] + keys)[1..] == keys;
    Assoc(EncodeString(k), Encode(d.entries[k], less), EncodeEntries(d, keys, less));
    Assoc(EncodeString(k), Encode(d.entries[k], less) + EncodeEntries(d, keys, less), [0x65]);
    Assoc(Encode(d.entries[k], less), EncodeEntries(d, keys, less), [0x65]);
  }
}
