/** Torrents of several files: what parsing makes of an info dictionary with a list of files. */
module MultiFile {
  import opened Bencode
  import opened Bytes
  import opened Pieces
  import opened TorrentFile

  const SLASH: byte := 0x2f

  function Strings(parts: seq<bytes>): (r: seq<Value>)
    ensures |r| == |parts| && forall i :: 0 <= i < |parts| ==> r[i] == Str(parts[i])
  {
    seq(|parts|, i requires 0 <= i < |parts| => Str(parts[i]))
  }

  function FileDict(path: seq<bytes>, length: safeInt): Value {
    Dict(map[KEY_LENGTH := Int(length), KEY_PATH := List(Strings(path))])
  }

  ghost predicate FilesOk(paths: seq<seq<bytes>>, contents: seq<bytes>) {
    && |paths| == |contents|
    && (forall i :: 0 <= i < |paths| ==> paths[i] != [])
    && (forall i :: 0 <= i < |contents| ==> |contents[i]| <= MAX_SAFE)
  }

  function FileDicts(paths: seq<seq<bytes>>, contents: seq<bytes>): seq<Value> {
    if paths == [] || contents == [] || |contents[0]| > MAX_SAFE then []
    else [FileDict(paths[0], |contents[0]|)] + FileDicts(paths[1..], contents[1..])
  }

  /** The info dictionary of a torrent of several files, as BEP 3 lays it out. */
  function FilesInfo(name: bytes, pieceLength: safeInt, pieces: bytes, files: seq<Value>, isPrivate: bool): Value {
    var info := map[KEY_FILES := List(files), KEY_NAME := Str(name), KEY_PIECE_LENGTH := Int(pieceLength),
                    KEY_PIECES := Str(pieces)];
    Dict(if isPrivate then info[KEY_PRIVATE := Int(1)] else info)
  }

  // ---------------------------------------------------------------- paths

  /** The parts of a path between its slashes. */
  function Split(path: bytes): (r: seq<bytes>)
    ensures r != []
  {
    if path == [] then [[]]
    else
      var rest := Split(path[1..]);
      if path[0] == SLASH then [[]] + rest else [[path[0]] + rest[0]] + rest[1..]
  }

  ghost predicate NoSlash(parts: seq<bytes>) {
    forall i :: 0 <= i < |parts| ==> SLASH !in parts[i]
  }

  lemma {:induction false} SplitParts(path: bytes)
    ensures NoSlash(Split(path))
  {
    if path != [] {
      var rest := Split(path[1..]);
      SplitParts(path[1..]);
      assert SLASH !in rest[0];
      if path[0] != SLASH {
        assert forall x :: x in [path[0]] + rest[0] ==> x == path[0] || x in rest[0];
      }
    }
  }

  lemma {:induction false} SplitFirst(part: bytes, rest: bytes)
    requires SLASH !in part
    ensures Split(part) == [part] && Split(part + [SLASH] + rest) == [part] + Split(rest)
  {
    if part == [] {
      assert part + [SLASH] + rest == [SLASH] + rest;
      assert ([SLASH] + rest)[1..] == rest;
    } else {
      SplitFirst(part[1..], rest);
      assert (part + [SLASH] + rest)[1..] == part[1..] + [SLASH] + rest;
      assert [part[0]] + part[1..] == part;
    }
  }

  /** A path is put together so that it can be taken apart again exactly when no part has a slash in it. */
  lemma {:induction false} JoinSplitIff(parts: seq<bytes>)
    requires parts != []
    ensures JoinPath(Strings(parts)).Some?
    ensures Split(JoinPath(Strings(parts)).value) == parts <==> NoSlash(parts)
  {
    JoinsAll(parts);
    var path := JoinPath(Strings(parts)).value;
    SplitParts(path);
    if NoSlash(parts) { JoinSplit(parts); }
  }

  lemma {:induction false} JoinsAll(parts: seq<bytes>)
    ensures JoinPath(Strings(parts)).Some?
  {
    if parts != [] {
      assert Strings(parts)[1..] == Strings(parts[1..]);
      JoinsAll(parts[1..]);
    }
  }

  lemma {:induction false} JoinSplit(parts: seq<bytes>)
    requires parts != [] && NoSlash(parts)
    ensures JoinPath(Strings(parts)).Some? && Split(JoinPath(Strings(parts)).value) == parts
  {
    assert Strings(parts)[1..] == Strings(parts[1..]);
    JoinsAll(parts[1..]);
    if |parts| == 1 {
      SplitFirst(parts[0], []);
    } else {
      assert forall i :: 0 <= i < |parts[1..]| ==> parts[1..][i] == parts[i + 1];
      JoinSplit(parts[1..]);
      SplitFirst(parts[0], JoinPath(Strings(parts[1..])).value);
      assert [parts[0]] + parts[1..] == parts;
    }
  }

  // ---------------------------------------------------------------- files

  /** The files read are those given: each path can be split into its parts, and each length is that of the content. */
  ghost predicate SameFiles(fs: seq<FileEntry>, paths: seq<seq<bytes>>, contents: seq<bytes>) {
    && |fs| == |paths| == |contents|
    && forall i :: 0 <= i < |fs| ==>
         fs[i].length == |contents[i]| && (Split(fs[i].path) == paths[i] <==> NoSlash(paths[i]))
  }

  lemma ExtractOne(path: seq<bytes>, length: safeInt)
    requires path != [] && length >= 0
    ensures var r := ExtractFile(FileDict(path, length));
            r.Ok? && r.value.length == length && (Split(r.value.path) == path <==> NoSlash(path))
  {
    hide Split, NoSlash, JoinPath;
    KeysDistinct();
    assert |KEY_PATH| == 4;
    JoinSplitIff(path);
  }

  lemma {:induction false} ExtractAll(paths: seq<seq<bytes>>, contents: seq<bytes>)
    requires FilesOk(paths, contents)
    ensures var r := ExtractFileList(FileDicts(paths, contents));
            r.Ok? && SameFiles(r.value, paths, contents) && TotalLength(r.value) == |Flatten(contents)|
  {
    if paths != [] {
      hide Split, NoSlash, FileDict, ExtractFile, SameFiles;
      ExtractAll(paths[1..], contents[1..]);
      ExtractOne(paths[0], |contents[0]|);
      var vs := FileDicts(paths, contents);
      assert vs[0] == FileDict(paths[0], |contents[0]|) && vs[1..] == FileDicts(paths[1..], contents[1..]);
      var rest := ExtractFileList(vs[1..]).value;
      var f := ExtractFile(vs[0]).value;
      assert ExtractFileList(vs).value == [f] + rest;
      assert ([f] + rest)[1..] == rest;
      SameFilesCons(f, rest, paths, contents);
    } else {
      NoFiles();
    }
  }

  lemma SameFilesCons(f: FileEntry, rest: seq<FileEntry>, paths: seq<seq<bytes>>, contents: seq<bytes>)
    requires paths != [] && contents != [] && SameFiles(rest, paths[1..], contents[1..])
    requires f.length == |contents[0]| && (Split(f.path) == paths[0] <==> NoSlash(paths[0]))
    ensures SameFiles([f] + rest, paths, contents)
  {
    hide Split, NoSlash;
    forall i | 0 <= i < |paths|
      ensures ([f] + rest)[i].length == |contents[i]|
      ensures Split(([f] + rest)[i].path) == paths[i] <==> NoSlash(paths[i])
    {
      if i > 0 { assert ([f] + rest)[i] == rest[i - 1] && paths[1..][i - 1] == paths[i]; }
    }
  }

  lemma NoFiles()
    ensures SameFiles([], [], [])
  {
  }

  lemma FilesFields(name: bytes, pieceLength: safeInt, pieces: bytes, files: seq<Value>, isPrivate: bool)
    ensures var info := FilesInfo(name, pieceLength, pieces, files, isPrivate);
            && Field(info, KEY_NAME) == Some(Str(name)) && Field(info, KEY_PIECE_LENGTH) == Some(Int(pieceLength))
            && Field(info, KEY_PIECES) == Some(Str(pieces)) && Field(info, KEY_FILES) == Some(List(files))
            && (Field(info, KEY_PRIVATE) == Some(Int(1)) <==> isPrivate)
  {
    KeysDistinct();
  }

  /**
   A torrent of several files, encoded and parsed: its length is that of all the files one behind the other, every file
   has its own length, and its path names the parts it was made of, provided that no part has a slash in it.
   */
  lemma ParseOfFiles(paths: seq<seq<bytes>>, contents: seq<bytes>, name: bytes, pieceLength: safeInt,
                     digests: seq<bytes>, isPrivate: bool, announce: bytes, less: (Key, Key) -> bool,
                     sha1: bytes -> bytes)
    requires FilesOk(paths, contents) && paths != [] && pieceLength >= 0
    requires forall i :: 0 <= i < |digests| ==> |digests[i]| == 20
    ensures var info := FilesInfo(name, pieceLength, Flatten(digests), FileDicts(paths, contents), isPrivate);
            var r := Parse(Encode(Dict(map[KEY_ANNOUNCE := Str(announce), KEY_INFO := info]), less), less, sha1);
            && r.Ok? && r.value.files.Some? && SameFiles(r.value.files.value, paths, contents)
            && r.value == Metadata(sha1(Encode(info, less)), name, pieceLength, digests, |Flatten(contents)|,
                                   r.value.files, announce, [], isPrivate)
  {
    hide Encode, Decode, FilesInfo, SameFiles, ExtractFileList, TotalLength, Flatten, Cut;
    var files := FileDicts(paths, contents);
    var info := FilesInfo(name, pieceLength, Flatten(digests), files, isPrivate);
    var torrent := Dict(map[KEY_ANNOUNCE := Str(announce), KEY_INFO := info]);
    DecodeEncode(torrent, less);
    KeysDistinct();
    FilesFields(name, pieceLength, Flatten(digests), files, isPrivate);
    CutDigests(digests);
    ExtractAll(paths, contents);
    assert files != [];
  }
}
