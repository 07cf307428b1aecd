# TorrentEdge engine: model and proofs

This project models the core of TorrentEdge, a BitTorrent engine with a small distributed control plane, in Dafny, and
proves what its data formats, storage, state machines and protocols promise. `dafny verify dfyconfig.toml` checks all of
it.

Each module describes a component by functions on values. Where the component changes things step by step, a class or a
method with loops does the same on its own fields and is proved to compute that description; the promises are then lemmas
about the description, for all inputs and all runs.

| files | what they model |
|---|---|
| `Bencode`, `BencodeCodec`, `BencodeOrder`, `BencodeFields` | the bencode encoder and decoder, the order of keys, and canonical bytes |
| `MetadataExchange` | the second bencode reader and the ut_metadata message |
| `TorrentFile`, `InfoHash`, `MultiFile` | creating torrents from buffers and streams, parsing them, info hashes, several files |
| `PieceProcessor`, `Pieces` | slicing a stream into pieces |
| `Base32`, `Bits` | base32 info hashes in magnet links |
| `FileWriter`, `FilePieces`, `FilePlaces` | pieces on many files, file progress, and where names lead to |
| `PeerWire` | the peer connection: handshake, framing, typed messages |
| `Kademlia`, `RoutingTable`, `Lookup` | XOR metric, k-buckets, iterative lookup |
| `QueueModel`, `QueueManager` | the queue of torrents |
| `Throttler` | the token bucket |
| `Blocks`, `Downloads`, `DownloadSafety`, `DownloadEnd`, `DownloadRequests`, `DownloadEffects`, `DownloadManager` | blocks, pieces and the download manager |
| `StateManager` | saving with backups under crashes |
| `Idempotency` | the idempotency guard over several pods |
| `Lease` | leases and fencing tokens in Redis |
| `Arith`, `Bytes`, `Sorting` | shared facts |

SHA-1 and SHA-256 are function parameters (of 20-byte results where that matters). Clocks, random bytes, responses of
other nodes, the order in which they arrive, piece availability, and whether a socket takes a write are parameters or
arbitrary inputs of a step. The disk is a map from places to bytes and a set of directories, a place being the list of
names on the way to it; Redis is a few keys with expiries.

## Where the code does not do what one might expect

Each of these is proved, as a rule with the exact condition under which the code does meet the expectation.

- Dictionary keys are sorted with `localeCompare`, which is not the byte order that BEP 3 (bencoding) asks for. The key
  order is a parameter, any strict total order; the two orders write a value alike if and only if they sort the keys of
  each dictionary in it alike (`SameEncodingIff`), which they do not for the keys a and B (`OrdersDiffer`).
- The info hash is taken from the re-encoded info dictionary. It is the digest of the bytes in the file if and only if
  numbers and lengths in there are plain and the keys ascend in the encoder's order (`HashesRawInfoIff`), which for a
  file in byte order depends on the order of keys alone (`StandardInfoHashIff`) and fails for an accepted file with the
  keys a and B (`HashesOtherBytes`).
- The two bencode readers agree on everything the encoder writes (`ReadersAgree`) and on every value whose length fields
  mean the same read as ASCII and as UTF-8 (`ReadersAgreeOn`); about all ends inside a value they agree exactly then
  (`ReadersAgreeInsideIff`). They do not on every buffer (`ReadersDisagree`).
- A file list in which two names lead to one place, to places below each other, or to the base directory or above it
  cannot be stored; nothing rejects it (`StoredIffPlacesFit`, `InitSucceedsIff`, `NoFileThere`).
- `writePiece` counts a rewritten piece twice until the progress is recalculated (`IncrementalProgressIff`).
- A base32 text with surplus bits that are not zero, or with an impossible length, is decoded but not reproduced
  (`EncodeDecode`); the 32-character form of an info hash is always reproduced.
- Bootstrap nodes are dropped when a lookup starts, so that a lookup over an empty routing table sends nothing. `IterativeLookup` says
  exactly when a lookup sends nothing; `BootstrapDropped` is the first case.
- In an unlimited direction of the throttler nobody serves the requests that wait (`StarvedIffUnlimited`,
  `StarvedForEver`). Lifting a limit leads there, for those who wait (`StarvedByLiftingLimit`) and for those a pause holds
  back (`StarvedByResuming`).
- Choosing a new piece does not look at the peer, so that a block can be asked of a peer that does not have it
  (`AsksInVainIff`, `AskedInVain`).
- `maxActiveRequests` is an upper bound only (`PeerLimit`). With peers that have everything one outstanding block stops
  all further requests, to all of them (`OneOutstanding`).
- `requestBlocks` throws at a peer that has sent no bitfield as soon as a piece is active, be it by a first request to
  that very peer (`NoBitfieldThrowsIff`), and the peers behind it are not asked (`RestNotAsked`). The first round of
  any download can do so (`FirstRoundThrows`).
- Completion of a selection is checked only when a selection is set. After files are deselected, downloading the last
  selected piece declares nothing (`SelectionDeclaredIff`, `SelectionNeverDeclared`); on the other hand a download can
  be complete before all its bytes are there (`CompleteBeforeAllBytes`). `CompleteIff` says exactly when it is.
- With a single backup there is a moment without any backup in every save (`BackupAtEveryMoment`). After a load from a
  backup the damaged main file takes the place of the newest backup (`LoadsNewestLeft`).
- The header of the lease manager promises fencing tokens that grow. Both keys die together, so every token is 1, and a
  token from a lost lease is accepted as soon as another node holds the lease (`ValidIff`, `StaleTokenRejectedIff`,
  `StaleTokenAccepted`).
- A plain text answer is replayed by the idempotency guard as a JSON object around it (`ReplayFaithful`,
  `PlainTextChanges`); an answer that is neither JSON nor text leaves every retry refused (`RetryAfterSuccess`).

## Model

| member | source | states |
|---|---|---|
| Bencode.DecodeEncode | src/server/torrentEngine/bencode.js:34-302 | for every value and every strict total order of keys, decoding the encoding gives the value back and takes up the whole buffer (BEP 3, bencoding) |
| Bencode.EncodePrefixFree | src/server/torrentEngine/bencode.js:240-302 | encodings are self-delimiting: if two encodings with anything behind them are the same bytes, the values are equal and so is what follows |
| Bencode.Format | src/server/torrentEngine/bencode.js:240-302 | numbers and strings are written as BEP 3, section bencoding, has them: i0e, i-42e, 0: and 12: with the twelve bytes behind it |
| Bencode.FormatOfMany | src/server/torrentEngine/bencode.js:264-302 | a list of one value is l, the value and e; a dictionary of one entry is d, the key, the value and e |
| Bencode.ParseEncoded | src/server/torrentEngine/bencode.js:204-222 | wherever an encoded value stands in a buffer, parsing there gives the value and the position right behind it |
| Bencode.ParseIntOfPrintInt | src/server/torrentEngine/bencode.js:46-80 | the decimal text of any integer, negative ones included, is parsed back to that integer |
| Bencode.AscendingUnique | src/server/torrentEngine/bencode.js:264-276 | a sorted list of keys is determined by the set of keys, so the entry order on the wire does not depend on insertion order or sorting algorithm |
| Bencode.ParseByteStringEncoded | src/server/torrentEngine/bencode.js:87-129 | a length-prefixed string, with any bytes in it, is read back exactly |
| Bencode.ParseEntriesEncoded | src/server/torrentEngine/bencode.js:158-189 | the entries of a dictionary are collected into exactly that dictionary, with the position behind the end marker |
| BencodeCodec.Decoder.ParseNext | src/server/torrentEngine/bencode.js:204-222 | the decoder that advances a shared position returns what the recursive description returns, value or error, and leaves the position where it says |
| BencodeCodec.Decoder.ParseInteger | src/server/torrentEngine/bencode.js:46-80 | reads one integer of the safe range: value, error and final position are those of the description, for every buffer and start; one beyond it, which the code rounds, is an error here |
| BencodeCodec.Decoder.ParseByteString | src/server/torrentEngine/bencode.js:87-129 | reads one byte string: value, error and final position are those of the description |
| BencodeCodec.Decoder.ParseList | src/server/torrentEngine/bencode.js:136-151 | the loop reads the items up to the end marker, or stops at the first error |
| BencodeCodec.Decoder.ParseDictionary | src/server/torrentEngine/bencode.js:158-189 | the loop collects key and value pairs; a key that is not a string, a missing end and an error inside are reported as such |
| BencodeCodec.DecodeBuffer | src/server/torrentEngine/bencode.js:34-233 | decode, trailing bytes refused, terminates on every buffer with the described value or error; integers beyond the safe range are refused |
| BencodeCodec.Encoder.EncodeValue | src/server/torrentEngine/bencode.js:278-302 | pushing pieces onto the list of buffers appends exactly the encoding of the value |
| BencodeCodec.Encoder.EncodeDictionary | src/server/torrentEngine/bencode.js:264-276 | appends the entries sorted by key between the markers |
| BencodeCodec.SortKeys | src/server/torrentEngine/bencode.js:264-276 | sorting the keys in whatever order they come gives the one ascending list |
| BencodeCodec.EncodeBuffer | src/server/torrentEngine/bencode.js:240-302 | encode returns the encoding of the value |
| BencodeOrder.SameEncodingIff | src/server/torrentEngine/bencode.js:264-276 | two key orders give the same encoding of a value if and only if they sort the keys of every dictionary inside it into the same list |
| BencodeOrder.ByteOrderIsOrder | src/server/torrentEngine/bencode.js:264-276 | comparing keys as raw bytes, as BEP 3 asks, is a strict total order, so that every theorem holds for it |
| BencodeOrder.OrdersDiffer | src/server/torrentEngine/bencode.js:264-276 | any order with a before B, as localeCompare has it, writes a dictionary with these two keys differently from the byte order |
| BencodeFields.CanonicalIff | src/server/torrentEngine/bencode.js:46-302 | wherever the decoder accepts a value, the bytes it was read from are the ones the encoder writes for it if and only if every number and every length in there is plain decimal, without sign, blank, leading zero or trailing text, and the keys of each dictionary strictly ascend |
| BencodeFields.StartsWithin | src/server/torrentEngine/bencode.js:136-222 | what is read inside an accepted value is itself an accepted value, ends within the whole, and nothing is read in it that is not read in the whole |
| MetadataExchange.ReadersAgree | src/server/torrentEngine/extensionProtocol.js:39-96 | for every value and any bytes behind it, the scanner and the decoder put the end of the value at the same place |
| MetadataExchange.FindEndEncoded | src/server/torrentEngine/extensionProtocol.js:39-96 | wherever an encoded value stands in a buffer, the scanner stops exactly behind it |
| MetadataExchange.ReadersAgreeOn | src/server/torrentEngine/extensionProtocol.js:39-96 | in any buffer and at any place, whenever the decoder accepts a value there, the scanner ends it at the same place, provided that each length field the decoder reads in it means the same number read as ASCII and as UTF-8; the contents of its strings do not matter |
| MetadataExchange.ReadersAgreeInsideIff | src/server/torrentEngine/extensionProtocol.js:39-96 | the two readers end every value and key inside an accepted value at the same place, the value itself included, if and only if each of its length fields means the same number in both readings |
| MetadataExchange.StringReadersAgreeIff | src/server/torrentEngine/extensionProtocol.js:80-96 | for one byte string that the decoder accepts, the two ends are the same if and only if its length field means the same number in both readings |
| MetadataExchange.ReadersAgreeOnAscii | src/server/torrentEngine/extensionProtocol.js:39-96 | the two readers agree on every accepted value without a byte above 127 |
| MetadataExchange.ReadersDisagree | src/server/torrentEngine/extensionProtocol.js:80-96 | a buffer both readers accept, whose end is 4 for the decoder and 14 for the scanner: the length field is read as ASCII by one and as UTF-8 by the other |
| MetadataExchange.ReadersResynchronise | src/server/torrentEngine/extensionProtocol.js:69-96 | why the condition is not necessary for a container: a list whose first length field is read differently, and which both readers still end at the same place |
| MetadataExchange.MessageSplit | src/server/torrentEngine/extensionProtocol.js:298-323 | a ut_metadata message made of an encoded dictionary and raw bytes is taken apart into exactly that dictionary and those bytes, for every message type (BEP 9, extension message) |
| MetadataExchange.FindBencodeEnd | src/server/torrentEngine/extensionProtocol.js:39-59 | the recursive scanner returns the described end or error, for every buffer and offset |
| MetadataExchange.FindBencodeContainerEnd | src/server/torrentEngine/extensionProtocol.js:69-78 | the cursor loop over a container stops behind its end marker or at the first error |
| MetadataExchange.HandleUtMetadata | src/server/torrentEngine/extensionProtocol.js:298-323 | what a ut_metadata payload leads to; a payload that does not decode is dropped |
| TorrentFile.CreateTorrentWithMagnet | src/server/torrentEngine/torrentCreator.js:378-403 | the info hash mismatch is unreachable: for every file and options the only errors are those of createTorrent, and otherwise the result is the created torrent |
| TorrentFile.CreateTorrent | src/server/torrentEngine/torrentCreator.js:56-116 | fails exactly for an empty file or a bad piece size; otherwise buffer, info hash, name, length and digests are those of the file |
| TorrentFile.ParseOfCreated | src/server/torrentEngine/torrentParser.js:9-72 | parsing a created torrent recovers its info hash, name, piece length, length, trackers, private flag, and the SHA-1 digests of the pieces in order |
| TorrentFile.HashPieces | src/server/torrentEngine/torrentCreator.js:130-154 | the digests, of both kinds, are those of consecutive slices of the file, and there is one for each slice |
| TorrentFile.PieceSizes | src/server/torrentEngine/torrentCreator.js:235-252 | a piece size that is asked for is taken exactly if it is between 16 KiB and 8 MiB; the automatic one is 256 KiB, and doubles at 64 MiB, 512 MiB and 2 GiB |
| TorrentFile.HashStream | src/server/torrentEngine/torrentCreator.js:471-492 | hashing a read stream in chunks of any sizes gives the digests that hashing the whole file gives |
| TorrentFile.GenerateFromFile | src/server/torrentEngine/torrentCreator.js:465-531 | the streamed torrent is the one made from the concatenation of the chunks; with an empty list of trackers nothing is returned, and only then |
| TorrentFile.SameInfoIff | src/server/torrentEngine/torrentCreator.js:157-184 | two torrents have the same info dictionary bytes if and only if name, length, piece length, private flag and the digests of all pieces are the same; trackers, comments and the way the file was read do not matter |
| TorrentFile.TorrentInfoHash | src/server/torrentEngine/torrentCreator.js:290-315 | the info hash taken from the bytes of a torrent file is the digest of its re-encoded info dictionary |
| TorrentFile.CutDigests | src/server/torrentEngine/torrentParser.js:106-123 | cutting joined 20-byte digests into 20-byte pieces gives the digests back |
| TorrentFile.ExtractPieces | src/server/torrentEngine/torrentParser.js:106-123 | the pieces field is cut into 20-byte hashes, in order |
| TorrentFile.ExtractAnnounceList | src/server/torrentEngine/torrentParser.js:160-190 | the tiers are read in order, and what is not a string is dropped |
| TorrentFile.ParseTorrent | src/server/torrentEngine/torrentParser.js:9-72 | every buffer leads to the described metadata or to the described error |
| MultiFile.ParseOfFiles | src/server/torrentEngine/torrentParser.js:9-158 | a torrent of several files, encoded with any key order and parsed: name, piece length, digests and private flag are those it was made with, the length is that of all the files one behind the other, each file has its own length, and its path can be split at the slashes into the parts it was made of if and only if none of the parts has a slash in it |
| MultiFile.JoinSplitIff | src/server/torrentEngine/torrentParser.js:145-154 | joining the parts of a path never fails, and the parts can be told again if and only if no part has a slash in it |
| InfoHash.HashesRawInfoIff | src/server/torrentEngine/torrentParser.js:74-81 | for every accepted torrent file the info hash is the digest of the re-encoded info dictionary, and that is the info dictionary as it stands in the file if and only if, in there, numbers and lengths are plain decimal and keys strictly ascend in the encoder's order |
| InfoHash.StandardInfoHashIff | src/server/torrentEngine/torrentParser.js:74-81 | a file with its keys in byte order is hashed as it stands if and only if the encoder's order sorts the keys of each dictionary in it by their bytes, too |
| InfoHash.HashesOtherBytes | src/server/torrentEngine/torrentParser.js:74-81 | a torrent file written as BEP 3 asks, which the parser accepts and for which it hashes other bytes than those in the file, under any key order with a before B |
| PieceProcessor.ProcessStream | src/server/torrentEngine/s3Streamer.js:395-455 | however the input is cut into chunks, the emitted pieces are numbered consecutively, none is empty, all but the last have full length, and joined they are the input |
| PieceProcessor.PieceProcessor.Transform | src/server/torrentEngine/s3Streamer.js:410-441 | for a chunk of any length the buffer of twice the piece length never overflows, the loops end, less than one piece stays behind, and every piece emitted is the next slice of what was received |
| PieceProcessor.PieceProcessor.EmitPiece | src/server/torrentEngine/s3Streamer.js:424-437 | taking a piece off the front and shifting the rest down loses and repeats no byte |
| PieceProcessor.PieceProcessor.Flush | src/server/torrentEngine/s3Streamer.js:443-455 | at the end the pieces emitted are all slices of what was received, the last possibly shorter |
| Base32.DecodeEncode | src/server/torrentEngine/magnet.js:31-111 | decoding an encoding gives the bytes back, for every byte string; only the empty text is refused (section 6 of RFC 4648) |
| Base32.EncodeDecode | src/server/torrentEngine/magnet.js:31-111 | encoding a decoded text gives it back in upper case if and only if fewer than five bits were dropped and all of them were zero |
| Base32.InfoHashText | src/server/torrentEngine/magnet.js:31-111 | every 32-character base32 text decodes to 20 bytes and is encoded back to itself in upper case |
| Base32.EncodeBase32 | src/server/torrentEngine/magnet.js:77-111 | the bit loops compute the encoding |
| Base32.DecodeBase32 | src/server/torrentEngine/magnet.js:31-66 | the bit loops compute the decoding, or report a character outside the alphabet |
| Base32.UpperIs | src/server/torrentEngine/magnet.js:31-66 | the 26 small letters become the first 26 characters of the alphabet, and no other character changes |
| Base32.Vector | src/server/torrentEngine/magnet.js:77-111 | the letter f is written MY, as in section 10 of RFC 4648 without the padding |
| FileWriter.OverlapsTile | src/server/torrentEngine/fileWriter.js:336-358 | the overlaps of a byte range with the files, zero lengths included, have no gap: their lengths add up to the part of the range that lies in the torrent |
| FileWriter.WriteContent | src/server/torrentEngine/fileWriter.js:165-192 | writing data at an offset replaces exactly that range of the torrent's bytes and no other byte of any file |
| FileWriter.ReadContent | src/server/torrentEngine/fileWriter.js:299-328 | reading the overlaps of a range gives that range of the torrent's bytes |
| FileWriter.ContentAt | src/server/torrentEngine/fileWriter.js:49-69 | byte j of file i stands at the file's offset plus j of the torrent's bytes |
| FileWriter.InitAllocates | src/server/torrentEngine/fileWriter.js:114-158 | after a successful initialization every file has its full length; a file that already had it keeps its bytes, and no other file changes |
| FileWriter.InitSucceedsIff | src/server/torrentEngine/fileWriter.js:114-158 | initialization succeeds, on any disk, if and only if no file of the list is at or above the base directory, ends in a slash or lies below another, no file on the disk is at or above the base directory or above one of them, and no directory is where one of them belongs |
| FileWriter.NoFileThere | src/server/torrentEngine/fileWriter.js:401-412 | a list that nothing rejects and no disk can take: one file whose name ends in a slash, or is empty or made of . and .. only, although it uses no place twice and none of its files lies below another |
| FilePieces.ReadAfterWrite | src/server/torrentEngine/fileWriter.js:165-192 | readPiece(i) after writePiece(i, d) returns d, and every other piece reads as before |
| FilePieces.WritesContent | src/server/torrentEngine/fileWriter.js:165-192 | after any writes in any order, bytes of written pieces are the content's and all others are as before |
| FilePieces.AllPiecesWritten | src/server/torrentEngine/fileWriter.js:165-192 | writing all pieces, in any order and with repeats, makes the concatenated files equal to the content |
| FilePieces.StoredIffPlacesFit | src/server/torrentEngine/fileWriter.js:49-69 | on an empty disk a download stores every content if and only if no two files have the same place, unless both are empty, none lies below another, none is the base directory or above it, and none ends in a slash; the code does not check this |
| FilePieces.ProgressConserved | src/server/torrentEngine/fileWriter.js:607-637 | for any set of completed pieces the downloaded bytes of the files add up to the sum of the lengths of these pieces |
| FilePieces.CompleteIff | src/server/torrentEngine/fileWriter.js:74-109 | a non-empty file is complete if and only if every piece of its range is completed |
| FilePieces.SharesRange | src/server/torrentEngine/fileWriter.js:74-109 | the pieces recorded for a file are exactly those that share at least one byte with it |
| FilePieces.IncrementalProgressIff | src/server/torrentEngine/fileWriter.js:262-292 | progress counted write by write equals the recalculated progress if and only if no piece of the file was written twice |
| FilePieces.FlagsFollow | src/server/torrentEngine/fileWriter.js:262-292 | whatever pieces are written, in any order, a file that has bytes is flagged complete if and only if the bytes counted reach its size |
| FileWriter.FileWriter.constructor | src/server/torrentEngine/fileWriter.js:16-109 | the base directory is the download path or the one with the torrent's name in it; the file map lies without gaps in the order of the torrent's list, each file at the place its name leads to from there |
| FilePlaces.PlacesOfList | src/server/torrentEngine/fileWriter.js:16-69 | files listed under plain names, without dots, go below the download path and the name of the torrent, one directory a part; a single file goes right below the download path |
| FilePlaces.JoinDown | src/server/torrentEngine/fileWriter.js:49-69 | a name made of plain parts with slashes between them leads from the base straight down through these parts, and a slash at its end is kept |
| FilePlaces.DotsGo | src/server/torrentEngine/fileWriter.js:49-69 | empty parts and . do not matter wherever they stand, .. takes back the plain part before it, and at the root it does nothing |
| FilePlaces.SplitIs | src/server/torrentEngine/fileWriter.js:49-69 | a name is split at its slashes: the parts have none, and with slashes between them they are the name again |
| FileWriter.FileWriter.BuildFileMap | src/server/torrentEngine/fileWriter.js:49-69 | the one file of the torrent, or each listed file right behind the one before it |
| FileWriter.FileWriter.InitializeProgressTracking | src/server/torrentEngine/fileWriter.js:74-109 | no progress yet, and for each file the range of pieces it touches |
| FileWriter.FileWriter.Initialize | src/server/torrentEngine/fileWriter.js:114-158 | makes the base directory, then for each file its directory and the file, or fails at the first that cannot be made; calling it again after success changes nothing |
| FileWriter.FileWriter.GetOverlappingFiles | src/server/torrentEngine/fileWriter.js:336-358 | the overlaps of a range, in file order |
| FileWriter.FileWriter.WritePiece | src/server/torrentEngine/fileWriter.js:165-192 | the new disk is the old one with the piece's overlaps patched in order, and the progress is credited for each; nothing is written when the files cannot be created |
| FileWriter.FileWriter.ReadPiece | src/server/torrentEngine/fileWriter.js:299-328 | the bytes of the piece's overlaps in order, cut or filled to the piece length, or nothing when the files cannot be created |
| FileWriter.FileWriter.RecalculateFileProgress | src/server/torrentEngine/fileWriter.js:607-637 | each file's progress is the sum of what it shares with the completed pieces, whatever it was before |
| PeerWire.Conversation | src/server/torrentEngine/peerConnection.js:162-523 | two connection objects: one sends its handshake and any sendable messages, the other is given what was written in data events cut in any way; it has then delivered exactly these messages, in order, knows the peer id and the extension bit, has nothing left in its buffer, has reported every frame but keep-alives, and holds its peer to be choking and interested exactly as the peer itself does, with the bitfield last sent (BEP 3, peer protocol) |
| PeerWire.StateIs | src/server/torrentEngine/peerConnection.js:222-312 | for every sequence of frames: the peer is choking if and only if every unchoke delivered is followed by a choke, interested if and only if some interested is followed by no not interested, and its bitfield is that of the last bitfield message, or none without one |
| PeerWire.InterpretIff | src/server/torrentEngine/peerConnection.js:222-312 | every frame is understood as a given message if and only if it says it byte for byte: the id, and for messages with fields the big-endian numbers and data of BEP 3 with nothing missing or behind them; the first four messages ignore their payload |
| PeerWire.WireFormat | src/server/torrentEngine/peerConnection.js:390-523 | the packets of the senders are those of BEP 3, section peer messages: length prefix, id, most significant byte first |
| PeerWire.EmittedIs | src/server/torrentEngine/peerConnection.js:222-312 | the raw message event comes exactly once for each frame that is not a keep-alive, and what it reports carries the messages delivered, in order |
| PeerWire.AcceptedIff | src/server/torrentEngine/peerConnection.js:317-383 | a handshake is accepted if and only if it is 19, the protocol name, any eight reserved bytes, this info hash and any peer id, with anything behind it |
| PeerWire.MessagesAre | src/server/torrentEngine/peerConnection.js:390-523 | of a run of sends, each message stands behind exactly as many others as were sent before it, and there is nothing else |
| PeerWire.StreamIsReceived | src/server/torrentEngine/peerConnection.js:198-312 | the frames of a handshake with any packets behind it are those of the packets, and they mean the messages sent |
| PeerWire.FramesAppend | src/server/torrentEngine/peerConnection.js:198-217 | splitting a stream into frames does not depend on how much of it has arrived: the frames of a prefix, then those of the rest, are the frames of the whole |
| PeerWire.InterpretWire | src/server/torrentEngine/peerConnection.js:223-312 | each message a typed sender writes is understood as that message |
| PeerWire.FramesOfPackets | src/server/torrentEngine/peerConnection.js:198-217 | the packets of any frames, written one after the other, are split into those frames again |
| PeerWire.HandshakeAccepted | src/server/torrentEngine/peerConnection.js:162-177 | the handshake that is sent is accepted for the same info hash, and carries the peer id and the extension bit |
| PeerWire.Receive | src/server/torrentEngine/peerConnection.js:182-217 | a connection fed a stream in chunks delivers what the whole stream delivers |
| PeerWire.PeerConnection.HandleData | src/server/torrentEngine/peerConnection.js:182-193 | after each data event, buffers, flags, delivered messages and peer state are determined by the bytes received so far, not by how they arrived |
| PeerWire.PeerConnection.ProcessMessages | src/server/torrentEngine/peerConnection.js:198-217 | takes every complete message off the front of the buffer and keeps the incomplete rest |
| PeerWire.PeerConnection.HandleMessage | src/server/torrentEngine/peerConnection.js:223-312 | one frame is delivered as its message, or ignored when malformed, and the peer state becomes the one that `StateIs` says in terms of the messages delivered |
| PeerWire.PeerConnection.ProcessHandshake | src/server/torrentEngine/peerConnection.js:317-383 | accepts a handshake of this protocol and info hash and goes on with the bytes behind it; otherwise disconnects |
| PeerWire.PeerConnection.SendHandshake | src/server/torrentEngine/peerConnection.js:162-177 | the 68 bytes are filled in field by field at their offsets; what goes out is accepted by a peer with the same info hash, which reads the own peer id from it |
| PeerWire.PeerConnection.SendMessage | src/server/torrentEngine/peerConnection.js:390-405 | writes one length-prefixed packet, or nothing before the handshake is complete |
| PeerWire.PeerConnection.Send | src/server/torrentEngine/peerConnection.js:436-523 | each typed sender writes the packet of its message; the flags follow only what was really sent |
| Kademlia.BucketIff | src/server/torrentEngine/dht/routingTable.js:191-212 | for every other id, its bucket is b if and only if the XOR distance, read as a 160-bit big-endian number, lies in [2^b, 2^(b+1)) (BEP 5, routing table) |
| Kademlia.LowerBucketCloser | src/server/torrentEngine/dht/routingTable.js:388-403 | an id in a lower bucket is strictly closer under the byte comparison used for sorting |
| Kademlia.CompareIsOrder | src/server/torrentEngine/dht/routingTable.js:388-403 | comparing distances byte by byte is comparing the numbers they stand for |
| Kademlia.DistanceZero | src/server/torrentEngine/dht/routingTable.js:366-379 | only an id itself is at distance zero, and distance is symmetric |
| Kademlia.Triangle | src/server/torrentEngine/dht/routingTable.js:366-379 | the XOR distance satisfies the triangle inequality as a number |
| Kademlia.Unidirectional | src/server/torrentEngine/dht/routingTable.js:366-379 | at a given distance from a target there is only one id |
| Kademlia.GetBucket | src/server/torrentEngine/dht/routingTable.js:191-212 | the scan over bytes and bits finds the bucket |
| Kademlia.RandomIdInBucket | src/server/torrentEngine/dht/node.js:349-380 | whatever random bytes are drawn, the generated id lies in the requested bucket |
| Kademlia.EveryIdDrawn | src/server/torrentEngine/dht/node.js:349-380 | every id of a bucket can be generated: drawing its own bytes gives it |
| Kademlia.GenerateRandomIdForBucket | src/server/torrentEngine/dht/node.js:349-380 | flips the bucket's bit, keeps the bits above it, fills the rest, and lands in the bucket |
| RoutingTable.EveryRunOk | src/server/torrentEngine/dht/routingTable.js:51-126 | in every run of additions and removals each bucket has at most k nodes, with different ids, each in the bucket its id demands, never the own id, oldest seen first |
| RoutingTable.AddedKeeps | src/server/torrentEngine/dht/routingTable.js:51-102 | an addition, be it new, refreshed or refused for a full bucket, keeps all of that |
| RoutingTable.AddedIs | src/server/torrentEngine/dht/routingTable.js:51-102 | an addition is accepted if and only if it is not the own id and the id is known already or its bucket has room; then the node is at the end of its bucket, in place of any older entry for its id, and the table holds nothing else that is new and lacks nothing else; a refused one changes nothing, and only a new id makes its bucket fresh |
| RoutingTable.RemovedKeeps | src/server/torrentEngine/dht/routingTable.js:109-126 | a removal keeps all of that |
| RoutingTable.RemovedIs | src/server/torrentEngine/dht/routingTable.js:109-126 | a removal takes out exactly the node with the id, and tells whether there was one |
| RoutingTable.ClosestOf | src/server/torrentEngine/dht/routingTable.js:161-184 | the selection is sorted by distance, and no node left out is closer than one selected |
| RoutingTable.ClosestStrict | src/server/torrentEngine/dht/routingTable.js:161-184 | with different ids, every node left out is strictly farther than each one selected |
| RoutingTable.RoutingTable.AddNode | src/server/torrentEngine/dht/routingTable.js:51-102 | the new table and the answer; a node without host or port is refused and changes nothing |
| RoutingTable.RoutingTable.RemoveNode | src/server/torrentEngine/dht/routingTable.js:109-126 | the new table, and whether the node was there |
| RoutingTable.RoutingTable.GetClosest | src/server/torrentEngine/dht/routingTable.js:161-184 | as many nodes as asked for or known, nearest first, and every other node of the table is strictly farther |
| RoutingTable.RoutingTable.GetOldestInBucket | src/server/torrentEngine/dht/routingTable.js:239-258 | nothing for an empty bucket, otherwise a node not seen later than any other of the bucket |
| Lookup.IterativeLookup | src/server/torrentEngine/dht/node.js:634-723 | for all answers, arrival orders and early stops: no endpoint is queried twice, at most maxIterations times alpha queries are made (20 rounds in the code), and the result is the k closest of exactly the nodes heard of, nearest first. Each round asks the alpha closest of the nodes open to it, or all of them, and another round is made if and only if there is no reason to end: the limit, a stop, nobody left to ask, or k nodes asked and a last round, not the first, none of whose answers came from closer than all before it. So a lookup that nobody stops and that stays below k and maxIterations queries has asked every node it heard of |
| Lookup.SettledIff | src/server/torrentEngine/dht/node.js:649-707 | the two counters by which the loop ends say what the trace of rounds says: k nodes asked, and no answer of the last round, which is not the first, from closer than all answers before it |
| Lookup.EndsIff | src/server/torrentEngine/dht/node.js:649-707 | as long as the limit is not reached and the lookup is not settled, it ends if and only if it is stopped or no known node is left to ask |
| Lookup.AllAsked | src/server/torrentEngine/dht/node.js:649-707 | a lookup that nobody stops, and that has made fewer queries than k and than maxIterations, has asked every node it heard of |
| Lookup.HeardIs | src/server/torrentEngine/dht/node.js:553-563 | an answer counts as progress if and only if its id is strictly closer to the target than those of all answers before it |
| Lookup.ToQueryIs | src/server/torrentEngine/dht/node.js:533-542 | a round asks at most alpha nodes not asked yet, none twice, and no other unasked node is closer |
| Lookup.MergeKeys | src/server/torrentEngine/dht/node.js:588-597 | merging an answer adds exactly the endpoints it names and never replaces a known one |
| Lookup.BootstrapDropped | src/server/torrentEngine/dht/node.js:524-531 | a lookup knows no node at its start if and only if its shortlist holds nothing but bootstrap nodes, which have no id and are dropped |
| Lookup.SeedAllIs | src/server/torrentEngine/dht/node.js:524-531 | a lookup starts from exactly the shortlist entries with an id, and of several for one endpoint from the last one |
| Lookup.LookupRun.Round | src/server/torrentEngine/dht/node.js:634-723 | one round of parallel queries keeps: no endpoint asked twice, the nodes known are exactly those heard of, and the counters agree with the trace of rounds, to which this one is added |
| QueueModel.EveryRunOk | src/server/torrentEngine/queueManager.js:34-502 | in every run each known torrent is in exactly one of active, queued, paused and completed, at most maxConcurrent are active, a non-empty queue means that active is full, and the known torrents are those added and not removed |
| QueueModel.EveryRunInOrder | src/server/torrentEngine/queueManager.js:485-502 | in every run without manual moves the queue is sorted by priority, then by time of addition |
| QueueModel.EveryRunLimit | src/server/torrentEngine/queueManager.js:6-27 | in every run the limit is the one of the last accepted change, or else the one given at the start, or 3 |
| QueueModel.StartsMostUrgent | src/server/torrentEngine/queueManager.js:422-442 | what processing starts is at least as urgent as anything it leaves waiting: of higher priority, or of the same and not added later |
| QueueModel.StartedFirst | src/server/torrentEngine/queueManager.js:34-502 | in every run without manual moves, when a step makes a torrent active, nothing that waits after the step was asked for more urgently by the operations so far: with higher priority, or with the same one and earlier; what they ask is the priority and time of the add, high priority and the time of a start, and a priority set later |
| QueueModel.EveryRunAsAsked | src/server/torrentEngine/queueManager.js:34-328 | in every run, with moves or without, every torrent that waits has the priority and the time that the operations gave it: those of its add, high and now from a start of a paused or waiting torrent, and the priority set last |
| QueueModel.Places | src/server/torrentEngine/queueManager.js:34-470 | where each operation takes the torrents: exactly which are paused and which completed after it; the active ones are those it leaves active, in their order, and behind them only what waited, what was added with room, and what was paused and is started; all other known torrents wait |
| QueueModel.EqualsInOrder | src/server/torrentEngine/queueManager.js:485-502 | entries of equal priority and time keep their order: a new one comes behind all of its kind, a paused torrent that is started without room before them |
| Sorting.StableUnique | src/server/torrentEngine/queueManager.js:485-502 | what sorting gives is determined by being sorted and stable, so the choice of sorting algorithm does not matter |
| QueueModel.ProcessStarts | src/server/torrentEngine/queueManager.js:422-442 | processing starts exactly as many as there is room for, from the head of the queue, in its order |
| QueueModel.StepKeeps | src/server/torrentEngine/queueManager.js:34-502 | every single operation keeps the partition, the limit and (but for moves) the order, and changes the known torrents only by adding or removing its own |
| QueueModel.AddKeeps | src/server/torrentEngine/queueManager.js:34-92 | adding fails exactly for a known torrent; otherwise the torrent is then paused if asked for, else active if there is room, else in the queue, and nothing else is lost; which priority it waits with is `EveryRunAsAsked` |
| QueueModel.RemoveKeeps | src/server/torrentEngine/queueManager.js:99-150 | removing succeeds exactly for a known torrent, which is then in none of the places, and a freed slot is filled |
| QueueModel.StartKeeps | src/server/torrentEngine/queueManager.js:157-222 | starting succeeds exactly for a paused or queued torrent, within the limit |
| QueueModel.PauseKeeps | src/server/torrentEngine/queueManager.js:229-253 | pausing succeeds exactly for an active torrent, which is then paused, and the freed slot is filled |
| QueueModel.SetMaxKeeps | src/server/torrentEngine/queueManager.js:259-283 | a limit below one is refused; a lower one pauses down to it, a higher one starts waiting torrents |
| QueueModel.PauseExcess | src/server/torrentEngine/queueManager.js:259-283 | lowering the limit keeps the torrents started earliest and pauses the others, without moving the queue |
| QueueModel.SetPriorityKeeps | src/server/torrentEngine/queueManager.js:290-321 | a new priority re-sorts the queue and loses no entry |
| QueueModel.MoveKeeps | src/server/torrentEngine/queueManager.js:328-351 | a move succeeds exactly for a queued torrent and a position in range; the torrent is then there, and the others follow one another as before |
| QueueModel.CompleteKeeps | src/server/torrentEngine/queueManager.js:449-470 | completion puts an active torrent among the completed ones, keeps every torrent in one place and fills the freed slot |
| QueueManager.QueueManager.Add | src/server/torrentEngine/queueManager.js:34-92 | the maps and the queue, changed in place, are the described new state, of which `AddKeeps`, `Places` and `EveryRunAsAsked` say where the torrent is and with which priority; or unchanged with the error |
| QueueManager.QueueManager.ProcessQueue | src/server/torrentEngine/queueManager.js:422-442 | the loop moves torrents from the head of the queue to the active ones while there is room |
| QueueManager.QueueManager.Remove | src/server/torrentEngine/queueManager.js:99-150 | the new state and whether the torrent was known |
| QueueManager.QueueManager.Start | src/server/torrentEngine/queueManager.js:157-222 | the new state and whether anything was started |
| QueueManager.QueueManager.Pause | src/server/torrentEngine/queueManager.js:229-253 | the new state and whether anything was paused |
| QueueManager.QueueManager.SetMaxConcurrent | src/server/torrentEngine/queueManager.js:259-283 | the new state, or unchanged with the error |
| QueueManager.QueueManager.SetPriority | src/server/torrentEngine/queueManager.js:290-321 | the new queue and whether the torrent was in it |
| QueueManager.QueueManager.MoveInQueue | src/server/torrentEngine/queueManager.js:328-351 | the new queue, or unchanged with the error |
| QueueManager.QueueManager.OnTorrentComplete | src/server/torrentEngine/queueManager.js:449-470 | the new state after a torrent reports completion |
| Throttler.RateBound | src/server/torrentEngine/throttler.js:47-78 | with a fixed positive limit L, over any stretch of any run with n refills, pauses included, the bytes granted are at most L + n * L * interval / 1000 |
| Throttler.TokensBecomeBytes | src/server/torrentEngine/throttler.js:47-223 | the companion of the bound, over any stretch of any run with one limit: the tokens there were, and those the refills bring up to the limit, less the tokens left, are the bytes granted; only a grant for less than what was asked loses some, and less than one each |
| Throttler.GrantedWholeIff | src/server/torrentEngine/throttler.js:47-78 | a request is granted whole at once if and only if its direction is unlimited, or no pause is on and there are enough tokens; it is held back if and only if the direction is limited and paused, and it waits if and only if there are no tokens at all and it asks for some |
| Throttler.StepPaid | src/server/torrentEngine/throttler.js:47-223 | every operation of a limited direction turns tokens into bytes: each new grant is whole but perhaps the last, and one that is not leaves no tokens and loses less than one |
| Throttler.DrainServes | src/server/torrentEngine/throttler.js:270-304 | serving the queue grants its requests from the front, in order, until none waits or no tokens are left, at least one if there are any tokens; all are granted whole but perhaps the last, and the tokens pay for them |
| Throttler.LimitThenAsk | src/server/torrentEngine/throttler.js:122-132 | a new limit takes tokens away only as far as it must: afterwards a request is granted whole if and only if it fits both the new limit and the tokens there were |
| Throttler.WokenAsks | src/server/torrentEngine/throttler.js:55-77 | in a direction that is limited, a request that wakes up after a pause is treated as if it were made now, and exactly it is held back no more |
| Throttler.PausedStill | src/server/torrentEngine/throttler.js:55-57 | while a pause lasts a limited direction stays exactly as it is, and every request made is held back |
| Throttler.ServedInOrder | src/server/torrentEngine/throttler.js:270-304 | in every run with positive limits, requests of positive size are served in the order in which they reached the bucket, and none that still waits has been overtaken |
| Throttler.StepKeeps | src/server/torrentEngine/throttler.js:207-223 | every operation, whatever limit it sets, keeps the tokens between zero and the limit and a non-empty queue at zero tokens; but for requests in an unlimited direction it keeps the order of service; and it spends no more than there is |
| Throttler.DrainKeeps | src/server/torrentEngine/throttler.js:270-304 | serving the queue keeps the order of service and ends with no tokens or nobody waiting |
| Throttler.WaitersServed | src/server/torrentEngine/throttler.js:207-223 | after n refills at least the first n of the requests now waiting have been served, and those left stand before all later arrivals |
| Throttler.StarvedIffUnlimited | src/server/torrentEngine/throttler.js:207-223 | a refill serves none of the requests that wait if and only if the direction is unlimited |
| Throttler.StarvedForEver | src/server/torrentEngine/throttler.js:47-78 | while a direction stays unlimited, whatever happens: those who wait keep waiting in their places, each request of positive size that a pause held back stays held or joins them, and granted, in whole, are exactly the requests made since and the empty ones of those held back |
| Throttler.StarvedByLiftingLimit | src/server/torrentEngine/throttler.js:122-132 | a run that comes to it: a request waits for tokens, the limit is lifted, and the request is never served |
| Throttler.StarvedByResuming | src/server/torrentEngine/throttler.js:47-78 | a run of the other kind: a request is held back by a pause, the limit is lifted, the pause ends, and the request joins the queue and is never served |
| Throttler.EveryRunOk | src/server/torrentEngine/throttler.js:47-223 | in every run, whatever limits are set in between, the tokens stay between zero and the limit and nobody waits while there are tokens; under positive limits the order of arrival is kept |
| Throttler.Throttler.RequestDownload | src/server/torrentEngine/throttler.js:47-78 | passes at once when unlimited; is held back while paused; otherwise grants all, grants what is left, or queues; a request that is unlimited, or finds enough tokens and no pause, is granted exactly what it asks for |
| Throttler.Throttler.WakeDownload | src/server/torrentEngine/throttler.js:55-77 | a request held back by a pause that is over finds the bucket like any other, but whether the direction is unlimited is not looked at again |
| Throttler.Throttler.RequestUpload | src/server/torrentEngine/throttler.js:85-116 | the same on the upload direction, with the same grant of exactly what is asked for |
| Throttler.Throttler.ProcessQueue | src/server/torrentEngine/throttler.js:270-304 | the loop serves waiting requests from the front, the last one possibly in part |
| Throttler.Throttler.OnRefillTimer | src/server/torrentEngine/throttler.js:207-223 | both directions get the tokens of one interval, capped at the limit, and their queues are served; nothing happens while paused |
| Throttler.Throttler.SetDownloadLimit | src/server/torrentEngine/throttler.js:122-132 | a new limit caps the tokens at once, and a direction that is in order of arrival stays so |
| Throttler.Throttler.SetUploadLimit | src/server/torrentEngine/throttler.js:138-148 | the same on the upload direction |
| StateManager.CrashConsistent | src/server/torrentEngine/stateManager.js:136-165 | after any history of completed and interrupted saves, a crash between any two disk steps of the next save (torn writes and copies included) leaves a disk from which load returns the last completed state, and the new one once the last step is done |
| StateManager.MainIsCommitted | src/server/torrentEngine/stateManager.js:136-165 | at every moment the main file is whole and holds the state of the last save that reached its end |
| StateManager.BackupsHold | src/server/torrentEngine/stateManager.js:361-393 | after n uninterrupted saves backup i holds save n-1-i for every i below n-1 and below the number of backups, and the other places are empty |
| StateManager.SaveDoes | src/server/torrentEngine/stateManager.js:136-165 | a whole save puts the new state in the main file, moves every backup up by one and the old main file to backup 0 |
| StateManager.ShiftsMove | src/server/torrentEngine/stateManager.js:361-393 | the renames, from the oldest down, move each backup up by one and overwrite none that is kept |
| StateManager.BackupAtEveryMoment | src/server/torrentEngine/stateManager.js:361-393 | from the third save on a whole backup exists at every moment of a save if and only if at least two backups are kept |
| StateManager.LoadsMain | src/server/torrentEngine/stateManager.js:76-131 | load returns the state in the main file, and nothing when nothing was ever saved |
| StateManager.LoadsNewestLeft | src/server/torrentEngine/stateManager.js:76-131 | after n uninterrupted saves, with the main file and the newest i backups cut short or gone, load finds save n-1-i in backup i; the save that follows puts a main file that was cut short into the place of the newest backup |
| StateManager.LoadedFrom | src/server/torrentEngine/stateManager.js:76-131 | what is loaded stands, whole and valid, in the main file or in one of the backups that are kept |
| StateManager.LoadsValidIff | src/server/torrentEngine/stateManager.js:320-355 | a state in the main file is loaded if and only if its version is 1 and every torrent in it has a non-empty info hash and a list of completed pieces |
| StateManager.StateManager.Save | src/server/torrentEngine/stateManager.js:136-165 | the new disk and each disk on the way to it are those of the list of steps; the time stamp is updated |
| StateManager.StateManager.RotateBackups | src/server/torrentEngine/stateManager.js:361-393 | the rotation makes exactly its list of steps, in that order |
| StateManager.StateManager.Load | src/server/torrentEngine/stateManager.js:76-131 | takes the first file that parses and validates; a state found in a backup is saved at once, and nothing found changes nothing |
| StateManager.StateManager.Flush | src/server/torrentEngine/stateManager.js:264-271 | saves only when something has changed |
| Idempotency.OneExecution | src/server/middleware/idempotency.js:130-198 | for any interleaving of requests with one id on any pods, at most one handler is between its claim and its finish |
| Idempotency.NoneAfterSuccess | src/server/middleware/idempotency.js:130-198 | after an execution has finished with a status below 500, no execution starts any more, in any continuation |
| Idempotency.ReplayIsProduced | src/server/middleware/idempotency.js:130-198 | every replayed answer is the stored form of one that an execution with this id gave |
| Idempotency.EveryRunOk | src/server/middleware/idempotency.js:40-117 | in every run the key exists exactly while some request holds it, only one does, and the commands under way are the ones of its own answer |
| Idempotency.RetryAfterSuccess | src/server/middleware/idempotency.js:130-198 | after success a retry gets the stored answer, or is refused for good when the answer was of a kind that is not stored |
| Idempotency.RetryAfterFailure | src/server/middleware/idempotency.js:190-195 | when nobody holds the key any more, a request that missed it runs its handler |
| Idempotency.FirstRequestRuns | src/server/middleware/idempotency.js:130-198 | a request that comes while nobody holds the key, such as the first one with its id, misses, claims the key and runs its handler |
| Idempotency.FailureFrees | src/server/middleware/idempotency.js:190-195 | after a finish the last command under way is a DEL if and only if the status is 500 or more, and once it is the only one left and arrives the key is gone and nobody holds it |
| Idempotency.ReplayFaithful | src/server/middleware/idempotency.js:165-188 | a replay sends the text of the first answer if and only if that text is in the form JSON.stringify writes |
| Idempotency.PlainTextChanges | src/server/middleware/idempotency.js:165-188 | plain text is replayed as an object around it, so the second client does not get what the first one got |
| Idempotency.IdempotencyGuard.OnGet | src/server/middleware/idempotency.js:130-156 | no entry lets the request go on to claim, in flight refuses it, completed replays |
| Idempotency.IdempotencyGuard.MarkInFlight | src/server/middleware/idempotency.js:57-78 | claims the key exactly when it is absent, and otherwise refuses |
| Idempotency.IdempotencyGuard.Send | src/server/middleware/idempotency.js:165-188 | the commands sent for each kind of answer: two for JSON, one for text, none otherwise |
| Idempotency.IdempotencyGuard.OnFinish | src/server/middleware/idempotency.js:190-195 | a server error sends one DEL behind everything sent before |
| Idempotency.IdempotencyGuard.OnDeliver | src/server/middleware/idempotency.js:87-117 | the oldest command of a request takes effect on the key |
| Lease.EveryRunPaired | src/server/torrentEngine/leaseManager.js:27-130 | in every run of acquire, renew, release and clock ticks by any nodes, the lease key and the token key are live together, with the same expiry |
| Lease.HandOver | src/server/torrentEngine/leaseManager.js:27-130 | a lease passes on only after its owner's release, or after a moment at which a full ttl had gone by since its last acquire or renew |
| Lease.ExpiryIs | src/server/torrentEngine/leaseManager.js:27-90 | a live lease expires exactly one ttl after its owner's last successful acquire or renew |
| Lease.TokenOfTenure | src/server/torrentEngine/leaseManager.js:27-104 | throughout a tenure the owner is given one and the same token, and it is accepted |
| Lease.TokenCounts | src/server/torrentEngine/leaseManager.js:27-57 | the script itself counts: the next owner gets one more than the token key holds, were it to outlive the lease |
| Lease.ValidIff | src/server/torrentEngine/leaseManager.js:100-104 | a token is accepted if and only if somebody holds the lease and the token is 1, the only one ever given out |
| Lease.StaleTokenRejectedIff | src/server/torrentEngine/leaseManager.js:100-104 | the token of a node that has lost its lease is rejected if and only if nobody holds the lease |
| Lease.StaleTokenAccepted | src/server/torrentEngine/leaseManager.js:27-57 | a run in which a lease expires, another node acquires it, and the first node's token is still accepted |
| Lease.AcquireIff | src/server/torrentEngine/leaseManager.js:27-57 | acquiring succeeds exactly for the owner or when there is none, and then both keys live for the ttl; otherwise nothing changes |
| Lease.RenewIff | src/server/torrentEngine/leaseManager.js:67-90 | renewing succeeds exactly for the owner, and then both keys live for the ttl; otherwise nothing changes |
| Lease.ReleaseFreesIff | src/server/torrentEngine/leaseManager.js:113-130 | after any run and a release by some node, another node can acquire the lease if and only if nobody, the releasing node or that other node held it; and the token stays valid if and only if somebody other than the releasing node held it |
| Lease.LeaseManager.AcquireLease | src/server/torrentEngine/leaseManager.js:27-57 | the keys of this transfer make the step, those of every other transfer stay, and the answer is the token or none |
| Lease.LeaseManager.RenewLease | src/server/torrentEngine/leaseManager.js:67-90 | the keys of this transfer make the renewal step, those of every other transfer stay, and the answer is the token or none |
| Lease.LeaseManager.ReleaseLease | src/server/torrentEngine/leaseManager.js:113-130 | the keys of this transfer are gone exactly when the caller was the owner, which is the answer; those of every other transfer stay |
| Lease.LeaseManager.RenewLeasesBulk | src/server/torrentEngine/leaseManager.js:141-170 | every listed transfer is renewed as if alone, no other one changes, and the answers stand in the order of the list |
| Lease.LeaseManager.Validate | src/server/torrentEngine/leaseManager.js:100-104 | whether the token is the live one |
| Blocks.BlocksInAnyOrder | src/server/torrentEngine/piece.js:45-143 | blocks of a content added in any order, with repeats, complete a piece if and only if all are there, and then the piece's data is the content |
| Blocks.TilesFollow | src/server/torrentEngine/piece.js:45-60 | the blocks tile the piece: block k starts at k times the block size, none is empty, and only the last may be shorter |
| Blocks.FindsBlock | src/server/torrentEngine/piece.js:91-93 | a block is found by its own offset and by no other |
| Blocks.AddBlockOk | src/server/torrentEngine/piece.js:101-130 | adding a block, with whatever offset and data, keeps the shape of the piece; it is complete exactly when every block is received, and only then has data |
| Blocks.AssembledExactly | src/server/torrentEngine/piece.js:136-143 | the assembled data is the block data in order, never cut or padded |
| Blocks.ResetOk | src/server/torrentEngine/piece.js:167-176 | a reset makes the piece as it was when created |
| Blocks.UnmarkMissing | src/server/torrentEngine/downloadManager.js:636-659 | marking a missing block as not received changes nothing |
| Blocks.Piece.constructor | src/server/torrentEngine/piece.js:20-40 | a new piece is tiled into missing blocks |
| Blocks.Piece.GetNextMissingBlock | src/server/torrentEngine/piece.js:74-84 | the first block not received, if any |
| Blocks.Piece.AddBlock | src/server/torrentEngine/piece.js:101-130 | the new piece and the answer: complete or not, or which of the two errors; an already received block changes nothing |
| Blocks.Piece.Verify | src/server/torrentEngine/piece.js:149-162 | verified exactly when the digest of the assembled data is the piece's hash |
| Blocks.Piece.Reset | src/server/torrentEngine/piece.js:167-176 | the loop clears every block and the flags |
| DownloadSafety.EveryRunOk | src/server/torrentEngine/downloadManager.js:176-689 | in every run all of the following hold together: pieces keep their shape, active pieces are different and not completed, downloaded pieces are verified, requests are in order, bytes are conserved |
| DownloadSafety.RequestsInOrder | src/server/torrentEngine/downloadManager.js:376-428 | in every run each piece has at most one request under way, and it is for the first missing block of an active piece that is not completed |
| DownloadSafety.DownloadedVerified | src/server/torrentEngine/downloadManager.js:430-518 | in every run each piece downloaded by it is assembled from its blocks, has its full length, and has the hash the torrent states |
| DownloadSafety.BytesConserved | src/server/torrentEngine/downloadManager.js:481-518 | in every run downloadedBytes is the sum of the lengths of the completed pieces; it is the torrent's length if and only if every piece is completed |
| DownloadSafety.PeerLimit | src/server/torrentEngine/downloadManager.js:361-374 | in every run, whichever peers come and go, no peer ever has more than maxActiveRequests requests under way |
| DownloadRequests.OneOutstanding | src/server/torrentEngine/downloadManager.js:361-428 | in every run in which no asked peer's bitfield lacks a piece, at most one piece is active and at most one block under way, with all peers together and whatever maxActiveRequests is |
| DownloadRequests.AsksInVainIff | src/server/torrentEngine/downloadManager.js:376-428 | in every state of a run, a peer is sent a request for a piece it does not have if and only if the send succeeds, it has none of the active pieces, and it does not have the rarest piece that is wanted either |
| DownloadRequests.AskedInVain | src/server/torrentEngine/downloadManager.js:415-428 | a run in which a peer that only has the second piece is asked for the first |
| DownloadSafety.CompletedStays | src/server/torrentEngine/downloadManager.js:430-518 | in every run a completed piece stays completed and keeps its bytes |
| DownloadSafety.ReceivedStays | src/server/torrentEngine/downloadManager.js:430-689 | no operation takes back a received block, unless it completes a piece with the wrong hash |
| DownloadSafety.GiveUpIs | src/server/torrentEngine/downloadManager.js:636-689 | cancels and timeouts drop requests and never take a received block back; which requests, `TimedOut` and `Cancelled` say |
| DownloadEffects.TimedOut | src/server/torrentEngine/downloadManager.js:661-689 | in every run: after a check at some time exactly the requests sent at most 30 seconds before it are left, the blocks of all older ones are no longer under way, and no piece changes |
| DownloadEffects.Cancelled | src/server/torrentEngine/downloadManager.js:636-659 | in every run: after a peer is cancelled exactly the requests to other peers are left, the blocks asked of it are no longer under way, and no piece changes |
| DownloadEffects.BlockArrives | src/server/torrentEngine/downloadManager.js:430-479 | a block message in any state of a run: one that is not asked for changes nothing; otherwise the request for its piece is over, a wrong length does no more than that, and the block is stored in its place; if it was the last one missing, the piece is completed if its blocks have the hash of the torrent, and otherwise every block is missing again; in both cases the piece leaves the active ones, whose order stays |
| DownloadEffects.SentIff | src/server/torrentEngine/downloadManager.js:376-428 | in every state of a run, a peer with a bitfield is sent a request if and only if its socket takes it and either the first active piece it has is not under way yet, or it has no active piece and some piece is selected, missing, not active and available |
| DownloadEffects.AsksWhileItCan | src/server/torrentEngine/downloadManager.js:361-374 | in every state of a run, a peer that may be asked is asked until maxActiveRequests are under way, choosing a piece throws, or nothing more can be sent to it |
| DownloadEffects.QuietAsksNothing | src/server/torrentEngine/downloadManager.js:305-349 | from the moment the manager is stopped until it is started, and from a pause until it is started or resumed, no request is added, whatever else happens |
| DownloadEffects.NothingBeforeStart | src/server/torrentEngine/downloadManager.js:271-349 | in every run in which the manager is never started no request is under way at the end |
| DownloadEffects.LastPieceCompletes | src/server/torrentEngine/downloadManager.js:481-518 | when the last missing piece is completed, the return of its write declares the download complete and stops the manager |
| DownloadEffects.SkippedIs | src/server/torrentEngine/downloadManager.js:230-269 | the deselected pieces are those set last, and no other operation changes them |
| DownloadEffects.StopsAndPauses | src/server/torrentEngine/downloadManager.js:271-337 | stopping ends the running state, pausing sets the pause, a start of a manager that is not running ends both, and a write that returns with every piece completed declares completion and stops the manager |
| DownloadEffects.HasPieceIff | src/server/torrentEngine/peerManager.js:350-359 | a bitfield has a piece if and only if the bit of its number is set in the string of all its bits, the most significant bit of each byte first (BEP 3, peer messages) |
| DownloadSafety.RarestFirst | src/server/torrentEngine/downloadManager.js:198-224 | a new piece is chosen exactly when one is wanted and available; it has the lowest availability, and of those the lowest index |
| DownloadSafety.HandlePieceKeeps | src/server/torrentEngine/downloadManager.js:430-479 | a block message, requested or not, of right or wrong length, completing or not, keeps the invariant |
| DownloadSafety.RequestAllKeeps | src/server/torrentEngine/downloadManager.js:339-374 | a round of requests to any peers keeps the invariant and changes no piece |
| DownloadEnd.CompleteIff | src/server/torrentEngine/downloadManager.js:230-269 | in every run the download counts as complete if and only if at some moment a write returned with every piece completed, or a selection was set all of whose pieces were |
| DownloadEnd.SelectionDeclaredIff | src/server/torrentEngine/downloadManager.js:510-517 | when a write returns and every selected piece is completed, completion is declared if and only if the deselected pieces are completed as well |
| DownloadEnd.NothingDeclaredWhileMissing | src/server/torrentEngine/downloadManager.js:250-269 | however a run goes on, as long as no selection is set, nothing is declared while any piece, selected or not, is missing |
| DownloadEnd.SelectionNeverDeclared | src/server/torrentEngine/downloadManager.js:510-517 | a run in which the only selected piece is requested, received, verified and written, and completion is not declared |
| DownloadEnd.CompleteBeforeAllBytes | src/server/torrentEngine/downloadManager.js:250-269 | a run that is declared complete with half of the torrent's bytes downloaded |
| DownloadEnd.NoBitfieldThrowsIff | src/server/torrentEngine/downloadManager.js:361-428 | in every state, asking a peer throws if and only if the peer is asked at all, has sent no bitfield, and a piece is active or becomes active by a first request to it that is sent |
| DownloadEnd.RestNotAsked | src/server/torrentEngine/downloadManager.js:339-349 | once asking a peer has thrown, the round is over: the state is the one at the exception, and every new request is to that peer |
| DownloadEnd.FirstRoundThrows | src/server/torrentEngine/downloadManager.js:339-428 | every download can come to it: started with nothing on the disk, it throws at a first peer that is ready but has sent no bitfield |
| DownloadSafety.InitOk | src/server/torrentEngine/downloadManager.js:54-65 | a manager that starts with any pieces already on the disk satisfies the invariant |
| DownloadManager.DownloadManager.GetPieceByIndex | src/server/torrentEngine/downloadManager.js:176-196 | creating a piece when it is first needed changes nothing that can be observed, and gives each index an object of its own |
| DownloadManager.DownloadManager.SelectNextPiece | src/server/torrentEngine/downloadManager.js:198-224 | the loop and the sort choose the described piece |
| DownloadManager.DownloadManager.SelectPieceForPeer | src/server/torrentEngine/downloadManager.js:415-428 | the first active piece the peer has and that misses a block, else a new one |
| DownloadManager.DownloadManager.RequestNextBlockForPeer | src/server/torrentEngine/downloadManager.js:376-413 | activates the piece and records the request, unless that block is already requested or the send fails |
| DownloadManager.DownloadManager.RequestBlocksForPeer | src/server/torrentEngine/downloadManager.js:361-374 | asks a peer until its limit, a refusal or an exception |
| DownloadManager.DownloadManager.RequestBlocks | src/server/torrentEngine/downloadManager.js:339-349 | asks every peer in turn, while running and not paused |
| DownloadManager.DownloadManager.HandlePieceMessage | src/server/torrentEngine/downloadManager.js:430-479 | the block goes into its piece object, and a piece that becomes complete is verified and either kept or reset; no other piece object changes |
| DownloadManager.DownloadManager.HandleVerifiedPiece | src/server/torrentEngine/downloadManager.js:481-484 | the piece moves from active to completed and its bytes are counted |
| DownloadManager.DownloadManager.HandleFailedPiece | src/server/torrentEngine/downloadManager.js:520-583 | the piece is reset, leaves the active ones, and its requests are dropped |
| DownloadManager.DownloadManager.CheckAllPieces | src/server/torrentEngine/downloadManager.js:510-517 | after a write: completion is declared and the manager stopped if and only if every piece is completed |
| DownloadManager.DownloadManager.CancelPeerRequests | src/server/torrentEngine/downloadManager.js:636-659 | the loop drops the peer's requests, as `Cancelled` has it, and marks their blocks as missing |
| DownloadManager.DownloadManager.HandleRequestTimeout | src/server/torrentEngine/downloadManager.js:661-689 | the loop drops the requests older than 30 seconds, as `TimedOut` has it, and marks their blocks as missing |
| DownloadManager.DownloadManager.SetSkippedPieces | src/server/torrentEngine/downloadManager.js:230-269 | the two counters decide completion exactly when some piece is selected and every selected one is completed |
| DownloadManager.DownloadManager.Resume | src/server/torrentEngine/downloadManager.js:310-314 | lifts the pause and asks for blocks at once |

## Left out

Bencode and torrent files

- Bencode.DecodeEncode: integers are those of the safe range (up to 2^53 - 1, the encoder's numbers); keys are byte strings, so keys that are not valid UTF-8 and `__proto__` are not told apart the way a JavaScript object does, nor does the key order hold two different keys equal, as localeCompare can.
- BencodeCodec.Decoder.ParseInteger: an integer beyond the safe range, which the code rounds to the nearest number it can hold, is refused with an error of its own.
- BencodeCodec.DecodeBuffer: the same, for any value that holds such an integer.
- MetadataExchange.ReadersAgreeOn: for a container the condition is sufficient only; that it is not necessary is shown by an example (`ReadersResynchronise`).
- MetadataExchange.MessageSplit: what the downloader does with the parts (assembling, hash check, retries) is not modelled.
- TorrentFile.CreateTorrent: the name is taken as given (no trimming or replacing of characters), progress callbacks are dropped, and the file is at most 2^53 - 1 bytes long.
- TorrentFile.GenerateFromFile: the file does not change while it is read; what the exception of an empty list of trackers does to the process is not modelled.
- TorrentFile.CreateTorrentWithMagnet: the text of the magnet link, and the tracker list, name and size read back for it, are not modelled.
- TorrentFile.ParseTorrent: a pieces field given as a list, and characters other than ASCII in paths, are not modelled.
- White space other than ASCII in front of a number that `parseInt` skips.

Storage and streams

- FileWriter.FileWriter.Initialize: a directory in the place of a file is found out even when the size reported for it is the length of the file; links, missing rights, a full disk, and names that the operating system refuses or holds equal are not modelled. The download path is absolute.
- FileWriter.FileWriter.WritePiece: open file descriptors, their cache, write errors, percentages and events are not modelled; a write is one patch of a file.
- PieceProcessor.PieceProcessor.Transform: the S3 request, its retries and the hash check of each piece are not modelled; callbacks do not fail.
- Base32.DecodeBase32: upper-casing is modelled for ASCII letters.
- Percent-encoding of magnet links, which is undone twice when parsing.

Peers and lookups

- PeerWire.PeerConnection.HandleData: the connection stays up until a handshake is refused; a socket that closes is not modelled. A connection object that is connected a second time keeps its old buffers; it is not modelled, nor are socket errors, back-pressure and the categories of errors.
- RoutingTable.RoutingTable.AddNode: statistics and refreshing by age are not modelled.
- Lookup.IterativeLookup: the messages and their transaction ids, peers returned by get_peers, and the flat table of the DHT node with its eviction are not modelled; a query is answered or not.

Queue, throttle and download

- QueueModel.EveryRunAsAsked: the running number in an entry's `position` field, which nothing reads, is counted up but nothing is said of it.
- QueueModel.EveryRunOk: assigning `maxConcurrent` from outside, and a torrent that completes while it is being started, are not modelled.
- Throttler.RateBound: the limit is fixed over the stretch; the shares of the global throttler are not modelled.
- Throttler.ServedInOrder: it starts from a direction that is in order; one that was unlimited while requests waited is not, as these have been passed over.
- Throttler.Throttler.SetDownloadLimit: limits are whole numbers from zero on.
- Blocks.Piece.constructor: a hash that is not 20 bytes long or a length of zero makes the constructor throw; here it is a precondition. The same holds for verifying an incomplete piece.
- DownloadManager.DownloadManager.GetPieceByIndex: an index out of range makes the code throw; callers inside the manager never pass one.
- DownloadManager.DownloadManager.HandlePieceMessage: writing to the disk, HAVE messages, retry counts, peer strikes and bans, and progress events are not modelled; the completion check after the write is a step of its own.
- DownloadEnd.NoBitfieldThrowsIff: what an exception that nobody catches does to the process is not modelled.
- Endgame mode, which calls methods that do not exist, and other writers of the manager's fields. A run starts from any set of pieces already on the disk.
- The availability counts of the peer manager are arbitrary inputs.

Protocols

- StateManager.CrashConsistent: a step that has been made stays made (no reordering of writes by the operating system); two saves never overlap; the saved states are valid.
- StateManager.StateManager.RotateBackups: errors other than a missing file are not modelled.
- Idempotency.OneExecution: Redis is reachable, the key does not expire, and a handler answers once; the guard lets requests through when Redis fails.
- Lease.HandOver: ttls are positive, and Redis is one server with one clock.

Not modelled at all: controllers, routes, authentication, Kafka, metrics, the S3 client, the command line.
