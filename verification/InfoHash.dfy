/**
 What the info hash of a parsed torrent is a hash of: the parser encodes the decoded info dictionary again and does not
 hash the bytes that stand in the file.
 */
module InfoHash {
  import opened Bencode
  import opened BencodeFields
  import opened BencodeOrder
  import opened Bytes
  import opened TorrentFile

  /** Where the value of `key` stands among the entries from `pos` on, the last one if the key is repeated. */
  function Extent(buf: bytes, pos: nat, key: Key, found: Option<(nat, nat)>): Option<(nat, nat)>
    requires pos <= |buf|
    decreases |buf| - pos
  {
    if pos == |buf| || !IsDigit(buf[pos]) then found
    else
      match ParseByteString(buf, pos)
      case Err(_) => found
      case Ok((k, p)) =>
        match ParseNext(buf, p)
        case Err(_) => found
        case Ok((v, q)) => Extent(buf, q, key, if k == key then Some((p, q)) else found)
  }

  /** `found` says where the value of `key` in `m` was read. */
  ghost predicate ReadAt(buf: bytes, m: map<Key, Value>, key: Key, found: Option<(nat, nat)>) {
    && (key in m <==> found.Some?)
    && (found.Some? ==>
          && found.value.0 <= found.value.1 <= |buf|
          && ParseNext(buf, found.value.0) == Ok((m[key], found.value.1)))
  }

  lemma {:induction false} ExtentIs(buf: bytes, pos: nat, acc: map<Key, Value>, key: Key, found: Option<(nat, nat)>)
    requires pos <= |buf| && ParseEntries(buf, pos, acc).Ok? && ReadAt(buf, acc, key, found)
    ensures ReadAt(buf, ParseEntries(buf, pos, acc).value.0, key, Extent(buf, pos, key, found))
    decreases |buf| - pos
  {
    hide ParseNext, ParseByteString;
    if buf[pos] != 0x65 {
      var (k, p) := ParseByteString(buf, pos).value;
      var (v, q) := ParseNext(buf, p).value;
      ExtentIs(buf, q, acc[k := v], key, if k == key then Some((p, q)) else found);
    }
  }

  /** A place found among the entries is one where the decoder reads a value. */
  lemma {:induction false} ExtentStarts(buf: bytes, pos: nat, acc: map<Key, Value>, key: Key, found: Option<(nat, nat)>)
    requires pos <= |buf| && ParseEntries(buf, pos, acc).Ok?
    ensures var e := Extent(buf, pos, key, found);
            e == found || (e.Some? && e.value.0 <= |buf| && Starts(buf, e.value.0) <= StartsOfEntries(buf, pos))
    decreases |buf| - pos
  {
    hide ParseNext, ParseByteString, Starts;
    if buf[pos] != 0x65 {
      var (k, p) := ParseByteString(buf, pos).value;
      var (v, q) := ParseNext(buf, p).value;
      ExtentStarts(buf, q, acc[k := v], key, if k == key then Some((p, q)) else found);
    }
  }

  /** Where the info dictionary stands in the file: its first byte and the one behind it. */
  function InfoAt(buffer: bytes): (r: (nat, nat))
    ensures r.0 <= r.1 <= |buffer|
  {
    if buffer == [] then (0, 0)
    else
      var e := Extent(buffer, 1, KEY_INFO, None);
      if e.Some? && e.value.0 <= e.value.1 <= |buffer| then e.value else (0, 0)
  }

  /** The bytes of the info dictionary as they stand in the file. */
  function RawInfo(buffer: bytes): bytes {
    buffer[InfoAt(buffer).0..InfoAt(buffer).1]
  }

  lemma InfoAtIs(buffer: bytes)
    requires InfoOf(buffer).Ok? && InfoOf(buffer).value.0.Dict?
    ensures ParseNext(buffer, InfoAt(buffer).0) == Ok((InfoOf(buffer).value.1, InfoAt(buffer).1))
    ensures Starts(buffer, InfoAt(buffer).0) <= Starts(buffer, 0)
  {
    ExtentIs(buffer, 1, map[], KEY_INFO, None);
    ExtentStarts(buffer, 1, map[], KEY_INFO, None);
  }

  /** The info dictionary stands in the file as the encoder writes it exactly when it is canonical there. */
  lemma WrittenIff(buffer: bytes, order: (Key, Key) -> bool)
    requires StrictTotalOrder(order) && InfoOf(buffer).Ok? && InfoOf(buffer).value.0.Dict?
    ensures Encode(InfoOf(buffer).value.1, order) == RawInfo(buffer) <==> Canonical(buffer, InfoAt(buffer).0, order)
  {
    hide Encode, InfoOf, ParseNext, Canonical, InfoAt;
    InfoAtIs(buffer);
    var (p, q) := InfoAt(buffer);
    var v := InfoOf(buffer).value.1;
    CanonicalIff(buffer, p, order);
    if At(buffer, p, Encode(v, order)) { ParseEncoded(buffer, p, v, order); }
  }

  /**
   For every accepted torrent file: the info hash is the digest of the re-encoded info dictionary, and that is the info
   dictionary as it stands in the file exactly when, in there, each number and each length is plain decimal without a
   leading zero and the keys of each dictionary strictly ascend in the encoder's order.
   */
  lemma HashesRawInfoIff(buffer: bytes, less: (Key, Key) -> bool, sha1: bytes -> bytes)
    requires StrictTotalOrder(less) && Parse(buffer, less, sha1).Ok?
    ensures InfoOf(buffer).Ok? && InfoOf(buffer).value.0.Dict?
    ensures Parse(buffer, less, sha1).value.infoHash == sha1(Encode(InfoOf(buffer).value.1, less))
    ensures Encode(InfoOf(buffer).value.1, less) == RawInfo(buffer) <==> Canonical(buffer, InfoAt(buffer).0, less)
  {
    hide Encode, RawInfo, Canonical, InfoAt, ExtractString, ExtractNumber, ExtractPiecesField, ExtractLayout;
    WrittenIff(buffer, less);
  }

  /**
   A file whose info dictionary is written as BEP 3 asks, keys in byte order, is hashed as it stands exactly when the
   encoder's order sorts the keys of every dictionary in it by their bytes, too.
   */
  lemma StandardInfoHashIff(buffer: bytes, less: (Key, Key) -> bool, sha1: bytes -> bytes)
    requires StrictTotalOrder(less) && Parse(buffer, less, sha1).Ok? && Canonical(buffer, InfoAt(buffer).0, ByteOrder())
    ensures InfoOf(buffer).Ok? && InfoOf(buffer).value.0.Dict?
    ensures Encode(InfoOf(buffer).value.1, less) == RawInfo(buffer)
       <==> SameOrder(InfoOf(buffer).value.1, less, ByteOrder())
  {
    hide Encode, RawInfo, ByteOrder, SameOrder, Canonical, InfoAt;
    HashesRawInfoIff(buffer, less, sha1);
    ByteOrderIsOrder();
    WrittenIff(buffer, ByteOrder());
    SameEncodingIff(InfoOf(buffer).value.1, less, ByteOrder());
  }

  // ---------------------------------------------------------------- a file that is hashed differently

  /** An info dictionary with the two extra keys "a" and "B". */
  function ExtraInfo(): Value {
    Dict(map[KEY_NAME := Str([0x66]), KEY_PIECE_LENGTH := Int(16384), KEY_PIECES := Str([]), KEY_LENGTH := Int(0),
             [0x61] := Int(1), [0x42] := Int(1)])
  }

  function ExtraTorrent(): Value {
    Dict(map[KEY_ANNOUNCE := Str([0x78]), KEY_INFO := ExtraInfo()])
  }

  lemma ExtraFields()
    ensures Field(ExtraTorrent(), KEY_INFO) == Some(ExtraInfo())
    ensures Field(ExtraTorrent(), KEY_ANNOUNCE) == Some(Str([0x78]))
    ensures Field(ExtraInfo(), KEY_NAME) == Some(Str([0x66])) && Field(ExtraInfo(), KEY_LENGTH) == Some(Int(0))
    ensures Field(ExtraInfo(), KEY_PIECE_LENGTH) == Some(Int(16384)) && Field(ExtraInfo(), KEY_PIECES) == Some(Str([]))
    ensures Field(ExtraInfo(), KEY_FILES) == None && [0x61] in ExtraInfo().entries && [0x42] in ExtraInfo().entries
  {
    KeysDistinct();
    assert KEY_NAME[0] == 0x6e;
  }

  /** Two orders that disagree about two keys sort every set of keys with these two into different lists. */
  lemma ListsDiffer(keys: set<Key>, x: Key, y: Key, a: (Key, Key) -> bool, b: (Key, Key) -> bool)
    requires StrictTotalOrder(a) && StrictTotalOrder(b) && x in keys && y in keys && a(x, y) && b(y, x)
    ensures SortedKeys(keys, a) != SortedKeys(keys, b)
  {
    var s := SortedKeys(keys, a);
    var i :| 0 <= i < |s| && s[i] == x;
    var j :| 0 <= j < |s| && s[j] == y;
    assert i < j && !b(s[i], s[j]);
  }

  /**
   A torrent file written as BEP 3 asks whose info hash is not the digest of its info bytes, under any order that puts
   "a" before "B", as localeCompare does: the parser accepts it and hashes other bytes than those in the file.
   */
  lemma HashesOtherBytes(less: (Key, Key) -> bool, sha1: bytes -> bytes)
    requires StrictTotalOrder(less) && less([0x61], [0x42])
    ensures var buffer := Encode(ExtraTorrent(), ByteOrder());
            && Parse(buffer, less, sha1).Ok? && Canonical(buffer, InfoAt(buffer).0, ByteOrder())
            && Parse(buffer, less, sha1).value.infoHash == sha1(Encode(ExtraInfo(), less))
            && Encode(ExtraInfo(), less) != RawInfo(buffer)
  {
    hide Encode, Canonical, InfoAt, RawInfo, SortedKeys, ByteOrder, SameOrder, AnnounceList, ExtraInfo, ExtraTorrent;
    var buffer := Encode(ExtraTorrent(), ByteOrder());
    ByteOrderIsOrder();
    ExtraFields();
    DecodeEncode(ExtraTorrent(), ByteOrder());
    CanonicalInside(buffer, ExtraTorrent(), ByteOrder());
    StandardInfoHashIff(buffer, less, sha1);
    BeforeByByte();
    ExtraOrdersDiffer(less);
  }

  lemma BeforeByByte()
    ensures ByteOrder()([0x42], [0x61])
  {
  }

  lemma ExtraOrdersDiffer(less: (Key, Key) -> bool)
    requires StrictTotalOrder(less) && less([0x61], [0x42])
    ensures !SameOrder(ExtraInfo(), less, ByteOrder())
  {
    ByteOrderIsOrder();
    BeforeByByte();
    ExtraFields();
    hide ByteOrder, SortedKeys;
    ListsDiffer(ExtraInfo().entries.Keys, [0x61], [0x42], less, ByteOrder());
  }

  /** In an encoded torrent the info dictionary is canonical, like everything else. */
  lemma CanonicalInside(buffer: bytes, torrent: Value, order: (Key, Key) -> bool)
    requires StrictTotalOrder(order) && buffer == Encode(torrent, order) && torrent.Dict? && InfoOf(buffer).Ok?
    ensures InfoOf(buffer).value.0 == torrent && Canonical(buffer, InfoAt(buffer).0, order)
  {
    hide Encode, InfoAt, Starts, PlainAt, ParseNext;
    assert buffer[0..0 + |buffer|] == buffer;
    DecodeEncode(torrent, order);
    ParseEncoded(buffer, 0, torrent, order);
    CanonicalIff(buffer, 0, order);
    InfoAtIs(buffer);
  }
}
