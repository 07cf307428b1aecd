/** The two sides of a .torrent file: building one from content, and reading one back. */
module TorrentFile {
  import opened Bytes
  import opened Pieces
  import opened Bencode
  import opened BencodeCodec

  /** The concatenation digests: a hash function is a parameter, of which only the output length is known. */
  ghost predicate Digest20(h: bytes -> bytes) {
    forall x :: |h(x)| == 20
  }

  function HashAll(h: bytes -> bytes, ps: seq<bytes>): (r: seq<bytes>)
    ensures |r| == |ps|
  {
    seq(|ps|, i requires 0 <= i < |ps| => h(ps[i]))
  }

  const KEY_ANNOUNCE: Key := Text("announce")
  const KEY_ANNOUNCE_LIST: Key := Text("announce-list")
  const KEY_CREATED_BY: Key := Text("created by")
  const KEY_CREATION_DATE: Key := Text("creation date")
  const KEY_INFO: Key := Text("info")
  const KEY_LENGTH: Key := Text("length")
  const KEY_NAME: Key := Text("name")
  const KEY_PIECE_LENGTH: Key := Text("piece length")
  const KEY_PIECES: Key := Text("pieces")
  const KEY_PRIVATE: Key := Text("private")
  const KEY_FILES: Key := Text("files")
  const KEY_PATH: Key := Text("path")

  lemma KeysDistinct()
    ensures KEY_LENGTH != KEY_PIECES && KEY_ANNOUNCE_LIST != KEY_CREATION_DATE && KEY_NAME != KEY_INFO
    ensures |KEY_ANNOUNCE| == 8 && |KEY_ANNOUNCE_LIST| == 13 && |KEY_CREATED_BY| == 10 && |KEY_CREATION_DATE| == 13
    ensures |KEY_INFO| == 4 && |KEY_LENGTH| == 6 && |KEY_NAME| == 4 && |KEY_PIECE_LENGTH| == 12
    ensures |KEY_PIECES| == 6 && |KEY_PRIVATE| == 7 && |KEY_FILES| == 5
  {
    assert KEY_LENGTH[0] != KEY_PIECES[0];
    assert KEY_ANNOUNCE_LIST[0] != KEY_CREATION_DATE[0];
    assert KEY_NAME[0] != KEY_INFO[0];
  }

  // ---------------------------------------------------------------- creation

  datatype Options = Options(name: bytes, pieceSize: Option<int>, trackers: seq<bytes>, isPrivate: bool,
                             createdBy: bytes, createdAt: safeInt)

  datatype Created = Created(torrentBuffer: bytes, infoHash: bytes, name: bytes, pieceLength: nat, pieceCount: nat,
                             fileSize: nat, chunkHashes: seq<bytes>)

  datatype CreateError = EmptyFile | BadPieceSize | BadTorrent | InfoHashMismatch

  const DEFAULT_TRACKERS: seq<bytes> := [
    Text("udp://tracker.opentrackr.org:1337/announce"),
    Text("udp://open.tracker.cl:1337/announce"),
    Text("udp://tracker.openbittorrent.com:6969/announce"),
    Text("udp://opentracker.i2p.rocks:6969/announce")
  ]

  function Trackers(o: Options): (r: seq<bytes>)
    ensures r != []
  {
    if o.trackers != [] then o.trackers else DEFAULT_TRACKERS
  }

  function ResolvePieceSize(requested: Option<int>, fileSize: nat): (r: Result<nat, CreateError>)
    ensures r.Ok? ==> 16384 <= r.value <= 8388608
  {
    match requested
    case Some(n) => if n < 16384 || n > 8388608 then Err(BadPieceSize) else Ok(n)
    case None =>
      if fileSize < 67108864 then Ok(262144)
      else if fileSize < 536870912 then Ok(524288)
      else if fileSize < 2147483648 then Ok(1048576)
      else Ok(2097152)
  }

  const MIB: nat := 0x10_0000

  /** A size asked for must be between 16 KiB and 8 MiB; the automatic one doubles with the file, up to 2 MiB. */
  lemma PieceSizes(asked: int, fileSize: nat)
    ensures ResolvePieceSize(Some(asked), fileSize)
         == if 0x4000 <= asked <= 8 * MIB then Ok(asked) else Err(BadPieceSize)
    ensures var auto := ResolvePieceSize(None, fileSize);
            && auto.Ok?
            && (auto.value == MIB / 4 || auto.value == MIB / 2 || auto.value == MIB || auto.value == 2 * MIB)
            && (auto.value >= MIB / 2 <==> fileSize >= 64 * MIB)
            && (auto.value >= MIB <==> fileSize >= 512 * MIB)
            && (auto.value >= 2 * MIB <==> fileSize >= 2048 * MIB)
  {
  }

  function InfoDict(name: bytes, length: safeInt, pieceLength: safeInt, pieces: bytes, isPrivate: bool): Value {
    var info := map[KEY_LENGTH := Int(length), KEY_NAME := Str(name), KEY_PIECE_LENGTH := Int(pieceLength),
                    KEY_PIECES := Str(pieces)];
    Dict(if isPrivate then info[KEY_PRIVATE := Int(1)] else info)
  }

  function Tiers(urls: seq<bytes>): (r: seq<Value>)
    ensures |r| == |urls|
  {
    seq(|urls|, i requires 0 <= i < |urls| => List([Str(urls[i])]))
  }

  function TorrentDict(info: Value, urls: seq<bytes>, createdBy: bytes, createdAt: safeInt): Value
    requires urls != []
  {
    Dict(map[KEY_ANNOUNCE := Str(urls[0]), KEY_ANNOUNCE_LIST := List(Tiers(urls)), KEY_CREATED_BY := Str(createdBy),
             KEY_CREATION_DATE := Int(createdAt), KEY_INFO := info])
  }

  /** hashPieces: the slices are taken by index, one digest of each kind a slice. */
  method HashPieces(file: bytes, pieceSize: nat, sha1: bytes -> bytes, sha256: bytes -> bytes)
    returns (piecesBuffer: bytes, chunkHashes: seq<bytes>)
    requires 0 < pieceSize
    ensures piecesBuffer == Flatten(HashAll(sha1, Cut(file, pieceSize)))
    ensures chunkHashes == HashAll(sha256, Cut(file, pieceSize))
  {
    var pieceCount := Count(|file|, pieceSize);
    CutCount(file, pieceSize);
    var hashBuffers: seq<bytes> := [];
    chunkHashes := [];
    for i := 0 to pieceCount
      invariant hashBuffers == HashAll(sha1, Cut(file, pieceSize)[..i])
      invariant chunkHashes == HashAll(sha256, Cut(file, pieceSize)[..i])
    {
      CutAt(file, pieceSize, i);
      var start := i * pieceSize;
      var end := Min(start + pieceSize, |file|);
      var piece := file[start..end];
      hashBuffers := hashBuffers + [sha1(piece)];
      chunkHashes := chunkHashes + [sha256(piece)];
    }
    assert Cut(file, pieceSize)[..pieceCount] == Cut(file, pieceSize);
    piecesBuffer := Flatten(hashBuffers);
  }

  ghost function CreatedInfo(file: bytes, o: Options, pieceSize: nat, sha1: bytes -> bytes): Value
    requires 0 < pieceSize <= MAX_SAFE && |file| <= MAX_SAFE
  {
    InfoDict(o.name, |file|, pieceSize, Flatten(HashAll(sha1, Cut(file, pieceSize))), o.isPrivate)
  }

  ghost function CreatedDict(file: bytes, o: Options, pieceSize: nat, sha1: bytes -> bytes): Value
    requires 0 < pieceSize <= MAX_SAFE && |file| <= MAX_SAFE
  {
    TorrentDict(CreatedInfo(file, o, pieceSize, sha1), Trackers(o), o.createdBy, o.createdAt)
  }

  ghost predicate CreatedFrom(c: Created, file: bytes, o: Options, pieceSize: nat, less: (Key, Key) -> bool,
                              sha1: bytes -> bytes)
    requires 0 < pieceSize <= MAX_SAFE && |file| <= MAX_SAFE
  {
    && c.torrentBuffer == Encode(CreatedDict(file, o, pieceSize, sha1), less)
    && c.infoHash == sha1(Encode(CreatedInfo(file, o, pieceSize, sha1), less))
    && c.name == o.name && c.pieceLength == pieceSize && c.fileSize == |file|
    && c.pieceCount == |Cut(file, pieceSize)|
  }

  method CreateTorrent(file: bytes, o: Options, less: (Key, Key) -> bool, sha1: bytes -> bytes, sha256: bytes -> bytes)
    returns (r: Result<Created, CreateError>)
    requires StrictTotalOrder(less) && |file| <= MAX_SAFE
    ensures r.Err? <==> file == [] || ResolvePieceSize(o.pieceSize, |file|).Err?
    ensures r.Ok? ==> CreatedFrom(r.value, file, o, ResolvePieceSize(o.pieceSize, |file|).value, less, sha1)
    ensures r.Ok? ==> r.value.chunkHashes == HashAll(sha256, Cut(file, r.value.pieceLength))
  {
    if file == [] { return Err(EmptyFile); }
    var size := ResolvePieceSize(o.pieceSize, |file|);
    if size.Err? { return Err(BadPieceSize); }
    var pieceSize := size.value;
    var piecesBuffer, chunkHashes := HashPieces(file, pieceSize, sha1, sha256);
    var pieceCount := Count(|file|, pieceSize);
    CutCount(file, pieceSize);
    var info := InfoDict(o.name, |file|, pieceSize, piecesBuffer, o.isPrivate);
    var encodedInfo := EncodeBuffer(info, less);
    var torrent := TorrentDict(info, Trackers(o), o.createdBy, o.createdAt);
    var torrentBuffer := EncodeBuffer(torrent, less);
    return Ok(Created(torrentBuffer, sha1(encodedInfo), o.name, pieceSize, pieceCount, |file|, chunkHashes));
  }

  /** The data and end events of generateFromFile: pieces are hashed as chunks of the read stream arrive. */
  method HashStream(chunks: seq<bytes>, pieceLength: nat, sha1: bytes -> bytes, sha256: bytes -> bytes)
    returns (pieces: seq<bytes>, chunkHashes: seq<bytes>)
    requires 0 < pieceLength
    ensures pieces == HashAll(sha1, Cut(Flatten(chunks), pieceLength))
    ensures chunkHashes == HashAll(sha256, Cut(Flatten(chunks), pieceLength))
  {
    var currentPiece: bytes := [];
    pieces, chunkHashes := [], [];
    ghost var k: nat, done: bytes := 0, [];
    assert 0 * pieceLength == 0;
    assert Flatten(chunks[..0]) == [];
    for i := 0 to |chunks|
      invariant Hashed(done, k, pieceLength, pieces, chunkHashes, sha1, sha256)
      invariant Flatten(chunks[..i]) == done + currentPiece && |currentPiece| < pieceLength
    {
      assert chunks[..i + 1] == chunks[..i] + [chunks[i]];
      FlattenSnoc(chunks[..i], chunks[i]);
      assert (done + currentPiece) + chunks[i] == done + (currentPiece + chunks[i]);
      currentPiece := currentPiece + chunks[i];
      while |currentPiece| >= pieceLength
        invariant Hashed(done, k, pieceLength, pieces, chunkHashes, sha1, sha256)
        invariant Flatten(chunks[..i + 1]) == done + currentPiece
        decreases |currentPiece|
      {
        hide Flatten, Hashed;
        var pieceToHash := currentPiece[..pieceLength];
        HashedStep(done, k, pieceLength, pieces, chunkHashes, sha1, sha256, pieceToHash);
        pieces := pieces + [sha1(pieceToHash)];
        chunkHashes := chunkHashes + [sha256(pieceToHash)];
        assert done + currentPiece == (done + pieceToHash) + currentPiece[pieceLength..];
        done, k := done + pieceToHash, k + 1;
        currentPiece := currentPiece[pieceLength..];
      }
    }
    assert chunks[..|chunks|] == chunks;
    CutAppend(done, currentPiece, pieceLength, k);
    if |currentPiece| > 0 {
      HashAllSnoc(sha1, Cut(done, pieceLength), currentPiece);
      HashAllSnoc(sha256, Cut(done, pieceLength), currentPiece);
      pieces := pieces + [sha1(currentPiece)];
      chunkHashes := chunkHashes + [sha256(currentPiece)];
    }
  }

  /** With no tracker there is no announce field to write: the end event throws and nothing is ever returned. */
  method GenerateFromFile(chunks: seq<bytes>, name: bytes, pieceLength: nat, trackers: seq<bytes>, createdAt: safeInt,
                          less: (Key, Key) -> bool, sha1: bytes -> bytes, sha256: bytes -> bytes)
    returns (c: Option<Created>)
    requires StrictTotalOrder(less) && 0 < pieceLength <= MAX_SAFE && |Flatten(chunks)| <= MAX_SAFE
    ensures c.None? <==> trackers == []
    ensures c.Some? ==>
              var o := StreamOptions(name, pieceLength, trackers, createdAt);
              && CreatedFrom(c.value, Flatten(chunks), o, pieceLength, less, sha1)
              && c.value.chunkHashes == HashAll(sha256, Cut(Flatten(chunks), pieceLength))
  {
    var pieces, chunkHashes := HashStream(chunks, pieceLength, sha1, sha256);
    var totalSize := |Flatten(chunks)|;
    var info := InfoDict(name, totalSize, pieceLength, Flatten(pieces), false);
    var encodedInfo := EncodeBuffer(info, less);
    if trackers == [] { return None; }
    var torrentBuffer := EncodeBuffer(TorrentDict(info, trackers, Text("TorrentEdge"), createdAt), less);
    c := Some(Created(torrentBuffer, sha1(encodedInfo), name, pieceLength, |pieces|, totalSize, chunkHashes));
  }

  function StreamOptions(name: bytes, pieceLength: nat, trackers: seq<bytes>, createdAt: safeInt): Options {
    Options(name, Some(pieceLength), trackers, false, Text("TorrentEdge"), createdAt)
  }

  ghost predicate Hashed(done: bytes, k: nat, n: nat, pieces: seq<bytes>, chunkHashes: seq<bytes>,
                         sha1: bytes -> bytes, sha256: bytes -> bytes)
    requires 0 < n
  {
    |done| == k * n && pieces == HashAll(sha1, Cut(done, n)) && chunkHashes == HashAll(sha256, Cut(done, n))
  }

  lemma HashAllSnoc(h: bytes -> bytes, ps: seq<bytes>, p: bytes)
    ensures HashAll(h, ps + [p]) == HashAll(h, ps) + [h(p)]
  {
  }

  lemma HashedStep(done: bytes, k: nat, n: nat, pieces: seq<bytes>, chunkHashes: seq<bytes>,
                   sha1: bytes -> bytes, sha256: bytes -> bytes, piece: bytes)
    requires 0 < n && |piece| == n && Hashed(done, k, n, pieces, chunkHashes, sha1, sha256)
    ensures Hashed(done + piece, k + 1, n, pieces + [sha1(piece)], chunkHashes + [sha256(piece)], sha1, sha256)
  {
    assert (k + 1) * n == k * n + n;
    CutAppend(done, piece, n, k);
    CutOne(piece, n);
    HashAllSnoc(sha1, Cut(done, n), piece);
    HashAllSnoc(sha256, Cut(done, n), piece);
  }

  // ---------------------------------------------------------------- parsing

  datatype FileEntry = FileEntry(path: bytes, length: nat)

  datatype Metadata = Metadata(infoHash: bytes, name: bytes, pieceLength: nat, pieces: seq<bytes>, length: nat,
                               files: Option<seq<FileEntry>>, announce: bytes, announceList: seq<seq<bytes>>,
                               isPrivate: bool)

  datatype ParseError =
    | DecodeFailed
    | RootNotADictionary
    | MissingInfo
    | MissingField
    | WrongType
    | NegativeNumber
    | BadPiecesLength
    | BadFiles

  /** JavaScript's `!value` for a decoded field. */
  predicate Falsy(v: Option<Value>) {
    v == None || v == Some(Int(0))
  }

  function ExtractString(v: Option<Value>): Result<bytes, ParseError> {
    if Falsy(v) then Err(MissingField) else if v.value.Str? then Ok(v.value.s) else Err(WrongType)
  }

  function ExtractNumber(v: Option<Value>): Result<nat, ParseError> {
    if v == None || !v.value.Int? then Err(WrongType)
    else if v.value.n < 0 then Err(NegativeNumber) else Ok(v.value.n)
  }

  function ExtractPiecesField(v: Option<Value>): Result<bytes, ParseError> {
    if Falsy(v) then Err(MissingField)
    else if !v.value.Str? then Err(WrongType)
    else if |v.value.s| % 20 != 0 then Err(BadPiecesLength)
    else Ok(v.value.s)
  }

  method ExtractPieces(piecesBuffer: bytes) returns (pieces: seq<bytes>)
    requires |piecesBuffer| % 20 == 0
    ensures pieces == Cut(piecesBuffer, 20)
  {
    pieces := [];
    var i := 0;
    assert piecesBuffer[0..] == piecesBuffer;
    while i < |piecesBuffer|
      invariant 0 <= i <= |piecesBuffer| && i % 20 == 0
      invariant pieces + Cut(piecesBuffer[i..], 20) == Cut(piecesBuffer, 20)
      decreases |piecesBuffer| - i
    {
      var rest := piecesBuffer[i..];
      var piece := piecesBuffer[i..i + 20];
      assert rest[..20] == piece && rest[20..] == piecesBuffer[i + 20..];
      CutHead(rest, 20);
      pieces := pieces + [piece];
      i := i + 20;
    }
  }

  function JoinPath(components: seq<Value>): Option<bytes> {
    if components == [] then Some([])
    else if !components[0].Str? then None
    else
      match JoinPath(components[1..])
      case None => None
      case Some(rest) => Some(if |components| == 1 then components[0].s else components[0].s + [0x2f] + rest)
  }

  function ExtractFile(v: Value): Result<FileEntry, ParseError> {
    if !v.Dict? then Err(BadFiles)
    else
      match ExtractNumber(Field(v, KEY_LENGTH))
      case Err(e) => Err(e)
      case Ok(length) =>
        match Field(v, KEY_PATH)
        case Some(List(components)) =>
          if components == [] then Err(BadFiles)
          else
            (match JoinPath(components)
             case None => Err(BadFiles)
             case Some(path) => Ok(FileEntry(path, length)))
        case _ => Err(BadFiles)
  }

  function ExtractFileList(vs: seq<Value>): Result<seq<FileEntry>, ParseError> {
    if vs == [] then Ok([])
    else
      match ExtractFile(vs[0])
      case Err(e) => Err(e)
      case Ok(f) =>
        match ExtractFileList(vs[1..])
        case Err(e) => Err(e)
        case Ok(fs) => Ok([f] + fs)
  }

  function TotalLength(fs: seq<FileEntry>): nat {
    if fs == [] then 0 else fs[0].length + TotalLength(fs[1..])
  }

  /** The files and the length: a list of files, or a single length. */
  function ExtractLayout(info: Value): Result<(Option<seq<FileEntry>>, nat), ParseError> {
    match Field(info, KEY_FILES)
    case None =>
      (match ExtractNumber(Field(info, KEY_LENGTH))
       case Err(e) => Err(e)
       case Ok(n) => Ok((None, n)))
    case Some(List(vs)) =>
      if vs == [] then Err(BadFiles)
      else
        (match ExtractFileList(vs)
         case Err(e) => Err(e)
         case Ok(fs) => Ok((Some(fs), TotalLength(fs))))
    case Some(_) => Err(BadFiles)
  }

  function TierUrls(tier: seq<Value>): seq<bytes> {
    if tier == [] then [] else (if tier[0].Str? then [tier[0].s] else []) + TierUrls(tier[1..])
  }

  /** A tier contributes its URLs unless it is not a list or has none. */
  function Tier(v: Value): seq<seq<bytes>> {
    if v.List? && TierUrls(v.items) != [] then [TierUrls(v.items)] else []
  }

  function TierList(tiers: seq<Value>): seq<seq<bytes>> {
    if tiers == [] then [] else Tier(tiers[0]) + TierList(tiers[1..])
  }

  function AnnounceList(v: Option<Value>): seq<seq<bytes>> {
    match v
    case Some(List(tiers)) => TierList(tiers)
    case _ => []
  }

  lemma TierListStep(tiers: seq<Value>, i: nat, done: seq<seq<bytes>>)
    requires i < |tiers|
    ensures done + TierList(tiers[i..]) == (done + Tier(tiers[i])) + TierList(tiers[i + 1..])
  {
    hide Tier;
    assert tiers[i..][1..] == tiers[i + 1..];
  }

  method ExtractAnnounceList(v: Option<Value>) returns (r: seq<seq<bytes>>)
    ensures r == AnnounceList(v)
  {
    hide TierUrls, TierList;
    if v == None || !v.value.List? { return []; }
    var tiers := v.value.items;
    r := [];
    assert tiers[0..] == tiers;
    for i := 0 to |tiers|
      invariant r + TierList(tiers[i..]) == TierList(tiers)
    {
      TierListStep(tiers, i, r);
      if tiers[i].List? {
        var urls := TierUrls(tiers[i].items);
        if |urls| > 0 { r := r + [urls]; }
      }
    }
    NoTiers();
    assert tiers[|tiers|..] == [];
  }

  lemma NoTiers()
    ensures TierList([]) == []
  {
  }

  /** The info dictionary of a torrent file, or why there is none. */
  function InfoOf(buffer: bytes): Result<(Value, Value), ParseError> {
    match Decode(buffer)
    case Err(_) => Err(DecodeFailed)
    case Ok(torrent) =>
      if torrent.Int? || torrent.List? then Err(RootNotADictionary)
      else if Falsy(Field(torrent, KEY_INFO)) then Err(MissingInfo)
      else Ok((torrent, Field(torrent, KEY_INFO).value))
  }

  ghost function Parse(buffer: bytes, less: (Key, Key) -> bool, sha1: bytes -> bytes): Result<Metadata, ParseError> {
    match InfoOf(buffer)
    case Err(e) => Err(e)
    case Ok((torrent, info)) =>
      match ExtractString(Field(info, KEY_NAME))
      case Err(e) => Err(e)
      case Ok(name) =>
        match ExtractNumber(Field(info, KEY_PIECE_LENGTH))
        case Err(e) => Err(e)
        case Ok(pieceLength) =>
          match ExtractPiecesField(Field(info, KEY_PIECES))
          case Err(e) => Err(e)
          case Ok(pieces) =>
            match ExtractLayout(info)
            case Err(e) => Err(e)
            case Ok((files, length)) =>
              match ExtractString(Field(torrent, KEY_ANNOUNCE))
              case Err(e) => Err(e)
              case Ok(announce) =>
                Ok(Metadata(sha1(Encode(info, less)), name, pieceLength, Cut(pieces, 20), length, files, announce,
                            AnnounceList(Field(torrent, KEY_ANNOUNCE_LIST)), Field(info, KEY_PRIVATE) == Some(Int(1))))
  }

  method ParseTorrent(buffer: bytes, less: (Key, Key) -> bool, sha1: bytes -> bytes)
    returns (r: Result<Metadata, ParseError>)
    requires StrictTotalOrder(less)
    ensures r == Parse(buffer, less, sha1)
  {
    var decoded := DecodeBuffer(buffer);
    if decoded.Err? { return Err(DecodeFailed); }
    var torrent := decoded.value;
    if torrent.Int? || torrent.List? { return Err(RootNotADictionary); }
    if Falsy(Field(torrent, KEY_INFO)) { return Err(MissingInfo); }
    var info := Field(torrent, KEY_INFO).value;
    var bencodedInfo := EncodeBuffer(info, less);
    var infoHash := sha1(bencodedInfo);
    var name := ExtractString(Field(info, KEY_NAME));
    if name.Err? { return Err(name.error); }
    var pieceLength := ExtractNumber(Field(info, KEY_PIECE_LENGTH));
    if pieceLength.Err? { return Err(pieceLength.error); }
    var piecesBuffer := ExtractPiecesField(Field(info, KEY_PIECES));
    if piecesBuffer.Err? { return Err(piecesBuffer.error); }
    var pieces := ExtractPieces(piecesBuffer.value);
    var layout := ExtractLayout(info);
    if layout.Err? { return Err(layout.error); }
    var announce := ExtractString(Field(torrent, KEY_ANNOUNCE));
    if announce.Err? { return Err(announce.error); }
    var announceList := ExtractAnnounceList(Field(torrent, KEY_ANNOUNCE_LIST));
    return Ok(Metadata(infoHash, name.value, pieceLength.value, pieces, layout.value.1, layout.value.0,
                       announce.value, announceList, Field(info, KEY_PRIVATE) == Some(Int(1))));
  }

  /** The info hash torrentToMagnet derives from the bytes of a torrent file. */
  method TorrentInfoHash(buffer: bytes, less: (Key, Key) -> bool, sha1: bytes -> bytes)
    returns (r: Result<bytes, CreateError>)
    requires StrictTotalOrder(less)
    ensures r == match InfoOf(buffer)
                 case Ok((_, info)) => Ok(sha1(Encode(info, less)))
                 case Err(_) => Err(BadTorrent)
  {
    var decoded := DecodeBuffer(buffer);
    if decoded.Err? || Falsy(Field(decoded.value, KEY_INFO)) { return Err(BadTorrent); }
    var encodedInfo := EncodeBuffer(Field(decoded.value, KEY_INFO).value, less);
    return Ok(sha1(encodedInfo));
  }

  /** The comparison of the two info hashes never fails: errors are exactly those of CreateTorrent. */
  method CreateTorrentWithMagnet(file: bytes, o: Options, less: (Key, Key) -> bool, sha1: bytes -> bytes,
                                 sha256: bytes -> bytes)
    returns (r: Result<Created, CreateError>)
    requires StrictTotalOrder(less) && |file| <= MAX_SAFE
    ensures r.Err? <==> file == [] || ResolvePieceSize(o.pieceSize, |file|).Err?
    ensures r.Err? ==> r.error != InfoHashMismatch && r.error != BadTorrent
    ensures r.Ok? ==> CreatedFrom(r.value, file, o, ResolvePieceSize(o.pieceSize, |file|).value, less, sha1)
  {
    var created := CreateTorrent(file, o, less, sha1, sha256);
    if created.Err? {
      if file == [] { return Err(EmptyFile); } else { return Err(BadPieceSize); }
    }
    var c := created.value;
    CreatedInfoOf(file, o, c.pieceLength, less, sha1);
    var extracted := TorrentInfoHash(c.torrentBuffer, less, sha1);
    if extracted.Err? { return Err(BadTorrent); }
    if c.infoHash != extracted.value { return Err(InfoHashMismatch); }
    return Ok(c);
  }

  // ---------------------------------------------------------------- agreement

  lemma CreatedInfoOf(file: bytes, o: Options, pieceSize: nat, less: (Key, Key) -> bool, sha1: bytes -> bytes)
    requires 0 < pieceSize <= MAX_SAFE && |file| <= MAX_SAFE
    ensures var dict := CreatedDict(file, o, pieceSize, sha1);
            InfoOf(Encode(dict, less)) == Ok((dict, CreatedInfo(file, o, pieceSize, sha1)))
  {
    hide Encode, Decode;
    var dict := CreatedDict(file, o, pieceSize, sha1);
    DecodeEncode(dict, less);
    KeysDistinct();
  }

  lemma {:induction false} CutDigests(hs: seq<bytes>)
    requires forall i :: 0 <= i < |hs| ==> |hs[i]| == 20
    ensures Cut(Flatten(hs), 20) == hs && |Flatten(hs)| == 20 * |hs|
  {
    if hs != [] {
      CutDigests(hs[1..]);
      CutAppend(hs[0], Flatten(hs[1..]), 20, 1);
      CutOne(hs[0], 20);
    }
  }

  function Singletons(urls: seq<bytes>): (r: seq<seq<bytes>>)
    ensures |r| == |urls|
  {
    seq(|urls|, i requires 0 <= i < |urls| => [urls[i]])
  }

  lemma {:induction false} TierListOfTiers(urls: seq<bytes>)
    ensures TierList(Tiers(urls)) == Singletons(urls)
  {
    if urls != [] {
      TierListOfTiers(urls[1..]);
      assert Tiers(urls)[1..] == Tiers(urls[1..]);
      assert TierUrls([Str(urls[0])]) == [urls[0]];
    }
  }

  /** Reading back a created torrent gives the same hash and exactly what it was made from. */
  lemma ParseOfCreated(file: bytes, o: Options, pieceSize: nat, less: (Key, Key) -> bool, sha1: bytes -> bytes,
                       c: Created)
    requires 0 < pieceSize <= MAX_SAFE && |file| <= MAX_SAFE && Digest20(sha1)
    requires CreatedFrom(c, file, o, pieceSize, less, sha1)
    ensures Parse(c.torrentBuffer, less, sha1)
         == Ok(Metadata(c.infoHash, o.name, pieceSize, HashAll(sha1, Cut(file, pieceSize)), |file|, None,
                        Trackers(o)[0], Singletons(Trackers(o)), o.isPrivate))
  {
    hide Encode, Decode, Cut, InfoDict, TorrentDict, HashAll, Tiers, TierList;
    CreatedInfoOf(file, o, pieceSize, less, sha1);
    var digests := HashAll(sha1, Cut(file, pieceSize));
    InfoFields(o.name, |file|, pieceSize, Flatten(digests), o.isPrivate);
    TorrentFields(CreatedInfo(file, o, pieceSize, sha1), Trackers(o), o.createdBy, o.createdAt);
    DigestsOfPieces(sha1, Cut(file, pieceSize));
    TierListOfTiers(Trackers(o));
  }

  lemma DigestsOfPieces(sha1: bytes -> bytes, ps: seq<bytes>)
    requires Digest20(sha1)
    ensures Cut(Flatten(HashAll(sha1, ps)), 20) == HashAll(sha1, ps) && |Flatten(HashAll(sha1, ps))| % 20 == 0
  {
    CutDigests(HashAll(sha1, ps));
  }

  lemma InfoFields(name: bytes, length: safeInt, pieceLength: safeInt, pieces: bytes, isPrivate: bool)
    ensures var info := InfoDict(name, length, pieceLength, pieces, isPrivate);
            && Field(info, KEY_NAME) == Some(Str(name)) && Field(info, KEY_PIECE_LENGTH) == Some(Int(pieceLength))
            && Field(info, KEY_PIECES) == Some(Str(pieces)) && Field(info, KEY_LENGTH) == Some(Int(length))
            && Field(info, KEY_FILES) == None && (Field(info, KEY_PRIVATE) == Some(Int(1)) <==> isPrivate)
  {
    KeysDistinct();
  }

  lemma TorrentFields(info: Value, urls: seq<bytes>, createdBy: bytes, createdAt: safeInt)
    requires urls != []
    ensures var torrent := TorrentDict(info, urls, createdBy, createdAt);
            && Field(torrent, KEY_ANNOUNCE) == Some(Str(urls[0]))
            && Field(torrent, KEY_ANNOUNCE_LIST) == Some(List(Tiers(urls)))
  {
    KeysDistinct();
  }

  /**
   What the info hash stands for: two created torrents hash the same bytes exactly when they have the same name, length,
   piece length, piece digests and private flag. How the file was read and which trackers are named do not matter.
   */
  lemma SameInfoIff(f: bytes, o: Options, n: nat, g: bytes, p: Options, m: nat, less: (Key, Key) -> bool,
                    sha1: bytes -> bytes)
    requires 0 < n <= MAX_SAFE && |f| <= MAX_SAFE && 0 < m <= MAX_SAFE && |g| <= MAX_SAFE && Digest20(sha1)
    ensures Encode(CreatedInfo(f, o, n, sha1), less) == Encode(CreatedInfo(g, p, m, sha1), less)
       <==> o.name == p.name && |f| == |g| && n == m && o.isPrivate == p.isPrivate
            && HashAll(sha1, Cut(f, n)) == HashAll(sha1, Cut(g, m))
  {
    hide Encode, Cut, HashAll;
    var x, y := HashAll(sha1, Cut(f, n)), HashAll(sha1, Cut(g, m));
    var a, b := CreatedInfo(f, o, n, sha1), CreatedInfo(g, p, m, sha1);
    DigestsOfPieces(sha1, Cut(f, n));
    DigestsOfPieces(sha1, Cut(g, m));
    InfoFields(o.name, |f|, n, Flatten(x), o.isPrivate);
    InfoFields(p.name, |g|, m, Flatten(y), p.isPrivate);
    if Encode(a, less) == Encode(b, less) {
      DecodeEncode(a, less);
      DecodeEncode(b, less);
      assert a == b;
    }
  }
}
