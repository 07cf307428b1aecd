/**
 What the key order means for the encoding. The encoder sorts keys with localeCompare, BEP 3 (section "Bencoding") by
 their bytes: the two encodings of a value are the same exactly when both orders sort every dictionary in it alike.
 */
module BencodeOrder {
  import opened Bytes
  import opened Bencode

  /** Every dictionary inside the value has the same list of sorted keys in both orders. */
  ghost predicate SameOrder(v: Value, a: (Key, Key) -> bool, b: (Key, Key) -> bool) {
    match v
    case Int(_) => true
    case Str(_) => true
    case List(items) => forall i :: 0 <= i < |items| ==> SameOrder(items[i], a, b)
    case Dict(entries) =>
      && SortedKeys(entries.Keys, a) == SortedKeys(entries.Keys, b)
      && forall k :: k in entries ==> SameOrder(entries[k], a, b)
  }

  // ---------------------------------------------------------------- the same order gives the same bytes

  lemma {:induction false} EncodedAlike(v: Value, a: (Key, Key) -> bool, b: (Key, Key) -> bool)
    requires SameOrder(v, a, b)
    ensures Encode(v, a) == Encode(v, b)
    decreases v, 1
  {
    match v
    case Int(_) =>
    case Str(_) =>
    case List(items) => ItemsAlike(items, a, b);
    case Dict(entries) => EntriesAlike(v, SortedKeys(entries.Keys, a), a, b);
  }

  lemma {:induction false} ItemsAlike(items: seq<Value>, a: (Key, Key) -> bool, b: (Key, Key) -> bool)
    requires forall i :: 0 <= i < |items| ==> SameOrder(items[i], a, b)
    ensures EncodeItems(items, a) == EncodeItems(items, b)
    decreases items, 0
  {
    if items != [] {
      EncodedAlike(items[0], a, b);
      ItemsAlike(items[1..], a, b);
    }
  }

  lemma {:induction false} EntriesAlike(d: Value, keys: seq<Key>, a: (Key, Key) -> bool, b: (Key, Key) -> bool)
    requires d.Dict? && (forall k :: k in keys ==> k in d.entries)
    requires forall k :: k in d.entries ==> SameOrder(d.entries[k], a, b)
    ensures EncodeEntries(d, keys, a) == EncodeEntries(d, keys, b)
    decreases d, 0, |keys|
  {
    if keys != [] {
      EncodedAlike(d.entries[keys[0]], a, b);
      EntriesAlike(d, keys[1..], a, b);
    }
  }

  // ---------------------------------------------------------------- the same bytes come from the same order

  /** Equal bytes in front of anything: equal encodings, whichever order wrote them. */
  lemma FrontsEqual(v: Value, w: Value, r: bytes, s: bytes, a: (Key, Key) -> bool, b: (Key, Key) -> bool)
    requires Encode(v, a) + r == Encode(w, b) + s
    ensures v == w && Encode(v, a) == Encode(w, b) && r == s
  {
    hide Encode, ParseNext;
    var x, y := Encode(v, a), Encode(w, b);
    var buf := x + r;
    assert buf[0..|x|] == x;
    assert buf[0..|y|] == (y + s)[..|y|];
    ParseEncoded(buf, 0, v, a);
    ParseEncoded(buf, 0, w, b);
    assert r == buf[|x|..] && s == (y + s)[|y|..];
    assert y == buf[0..|y|];
  }

  /** The same for two strings. */
  lemma KeysEqual(k: Key, l: Key, r: bytes, s: bytes)
    requires EncodeString(k) + r == EncodeString(l) + s
    ensures k == l && r == s
  {
    var any := (x: Key, y: Key) => false;
    assert Encode(Str(k), any) == EncodeString(k) && Encode(Str(l), any) == EncodeString(l);
    FrontsEqual(Str(k), Str(l), r, s, any, any);
  }

  lemma {:induction false} OrderOfEncoding(v: Value, a: (Key, Key) -> bool, b: (Key, Key) -> bool)
    requires Encode(v, a) == Encode(v, b)
    ensures SameOrder(v, a, b)
    decreases v, 1
  {
    match v
    case Int(_) =>
    case Str(_) =>
    case List(items) =>
      Unframe(0x6c, EncodeItems(items, a), EncodeItems(items, b));
      OrderOfItems(items, a, b);
    case Dict(entries) =>
      var ka, kb := SortedKeys(entries.Keys, a), SortedKeys(entries.Keys, b);
      Unframe(0x64, EncodeEntries(v, ka, a), EncodeEntries(v, kb, b));
      OrderOfEntries(v, ka, kb, a, b);
      assert forall k :: k in entries ==> k in ka;
  }

  lemma Unframe(open: byte, x: bytes, y: bytes)
    requires [open] + x + [0x65] == [open] + y + [0x65]
    ensures x == y
  {
    var s, t := [open] + x + [0x65], [open] + y + [0x65];
    assert x == s[1..|s| - 1];
    assert y == t[1..|t| - 1];
  }

  lemma {:induction false} OrderOfItems(items: seq<Value>, a: (Key, Key) -> bool, b: (Key, Key) -> bool)
    requires EncodeItems(items, a) == EncodeItems(items, b)
    ensures forall i :: 0 <= i < |items| ==> SameOrder(items[i], a, b)
    decreases items, 0
  {
    if items != [] {
      hide Encode, SameOrder;
      FrontsEqual(items[0], items[0], EncodeItems(items[1..], a), EncodeItems(items[1..], b), a, b);
      OrderOfEncoding(items[0], a, b);
      OrderOfItems(items[1..], a, b);
      forall i | 0 <= i < |items| ensures SameOrder(items[i], a, b) {
        if i > 0 { assert items[i] == items[1..][i - 1]; }
      }
    }
  }

  lemma {:induction false} OrderOfEntries(d: Value, ka: seq<Key>, kb: seq<Key>, a: (Key, Key) -> bool,
                                          b: (Key, Key) -> bool)
    requires d.Dict? && (forall k :: k in ka ==> k in d.entries) && forall k :: k in kb ==> k in d.entries
    requires EncodeEntries(d, ka, a) == EncodeEntries(d, kb, b)
    ensures ka == kb && forall k :: k in ka ==> SameOrder(d.entries[k], a, b)
    decreases d, 0, |ka|
  {
    hide Encode, EncodeString, SameOrder;
    if ka != [] && kb != [] {
      var va, vb := Encode(d.entries[ka[0]], a), Encode(d.entries[kb[0]], b);
      var ra, rb := EncodeEntries(d, ka[1..], a), EncodeEntries(d, kb[1..], b);
      Assoc(EncodeString(ka[0]), va, ra);
      Assoc(EncodeString(kb[0]), vb, rb);
      KeysEqual(ka[0], kb[0], va + ra, vb + rb);
      FrontsEqual(d.entries[ka[0]], d.entries[kb[0]], ra, rb, a, b);
      OrderOfEncoding(d.entries[ka[0]], a, b);
      OrderOfEntries(d, ka[1..], kb[1..], a, b);
      assert ka == [ka[0]] + ka[1..] && kb == [kb[0]] + kb[1..];
    }
  }

  /** Two orders encode a value alike exactly when they sort the keys of every dictionary inside it alike. */
  lemma SameEncodingIff(v: Value, a: (Key, Key) -> bool, b: (Key, Key) -> bool)
    ensures Encode(v, a) == Encode(v, b) <==> SameOrder(v, a, b)
  {
    if SameOrder(v, a, b) { EncodedAlike(v, a, b); }
    if Encode(v, a) == Encode(v, b) { OrderOfEncoding(v, a, b); }
  }

  // ---------------------------------------------------------------- the order BEP 3 asks for

  /** Keys compared as raw bytes, a prefix first. */
  predicate ByteLess(x: Key, y: Key) {
    if y == [] then false
    else if x == [] then true
    else if x[0] != y[0] then x[0] < y[0]
    else ByteLess(x[1..], y[1..])
  }

  function ByteOrder(): (Key, Key) -> bool {
    (x, y) => ByteLess(x, y)
  }

  lemma {:induction false} ByteLessTransitive(x: Key, y: Key, z: Key)
    requires ByteLess(x, y) && ByteLess(y, z)
    ensures ByteLess(x, z)
  {
    if x != [] && x[0] == y[0] == z[0] { ByteLessTransitive(x[1..], y[1..], z[1..]); }
  }

  lemma {:induction false} ByteLessTotal(x: Key, y: Key)
    ensures !ByteLess(x, x)
    ensures x != y ==> ByteLess(x, y) || ByteLess(y, x)
  {
    if x != [] {
      ByteLessTotal(x[1..], if y == [] then [] else y[1..]);
      if y != [] && x[0] == y[0] && x != y {
        assert x[1..] != y[1..] by { assert x == [x[0]] + x[1..] && y == [y[0]] + y[1..]; }
      }
    }
  }

  lemma ByteOrderIsOrder()
    ensures StrictTotalOrder(ByteOrder())
  {
    forall x: Key, y: Key, z: Key | ByteLess(x, y) && ByteLess(y, z) ensures ByteLess(x, z) {
      ByteLessTransitive(x, y, z);
    }
    forall x: Key, y: Key ensures !ByteLess(x, x) && (x != y ==> ByteLess(x, y) || ByteLess(y, x)) {
      ByteLessTotal(x, y);
    }
  }

  lemma SortedPair(x: Key, y: Key, less: (Key, Key) -> bool)
    requires StrictTotalOrder(less) && less(x, y)
    ensures SortedKeys({x, y}, less) == [x, y]
  {
    AscendingUnique(SortedKeys({x, y}, less), [x, y], less);
  }

  /**
   Any order that puts "a" before "B", as localeCompare does, encodes a dictionary with these two keys differently from
   the byte order.
   */
  lemma OrdersDiffer(less: (Key, Key) -> bool, v: Value, w: Value)
    requires StrictTotalOrder(less) && less([0x61], [0x42])
    ensures var d := Dict(map[[0x61] := v, [0x42] := w]);
            Encode(d, less) != Encode(d, ByteOrder())
  {
    var a: Key, b: Key := [0x61], [0x42];
    var d := Dict(map[a := v, b := w]);
    ByteOrderIsOrder();
    assert ByteLess(b, a);
    SortedPair(a, b, less);
    SortedPair(b, a, ByteOrder());
    assert d.entries.Keys == {a, b} == {b, a};
    SameEncodingIff(d, less, ByteOrder());
    assert [a, b][0] != [b, a][0];
  }
}
