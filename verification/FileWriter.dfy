/**
 The mapping of pieces onto files: which bytes of which files a piece covers, writing and reading pieces on disk,
 and the progress of each file. The disk is a map from places to contents, and a set of directories; where a listed file
 lies on the disk is what path.join makes of the base directory and its name.
 */
module FileWriter {
  import opened Arith
  import opened Bytes
  import opened Pieces

  /** A place on the disk: the names on the way to it from the root. An empty last name stands for a '/' at the end. */
  type Path = seq<string>

  datatype FileInfo = FileInfo(path: Path, length: nat, offset: nat)

  datatype Overlap = Overlap(fileIndex: nat, fileOffset: nat, length: nat)

  datatype Progress = Progress(downloaded: nat, size: nat, complete: bool)

  datatype PieceRange = PieceRange(first: int, last: int, pieces: set<int>)

  type Disk = map<Path, bytes>

  /** Files and directories. */
  datatype Tree = Tree(files: Disk, dirs: set<Path>)

  /** What a torrent lists: one file under the torrent's own name, or files under names of their own. */
  datatype Listing = SingleFile(name: string, length: nat) | MultiFile(name: string, entries: seq<(string, nat)>)

  function Max(a: int, b: int): int {
    if a > b then a else b
  }

  // ---------------------------------------------------------------- places

  /** name.split('/') */
  function Split(name: string): (r: seq<string>)
    ensures r != []
  {
    if name == "" then [""]
    else
      var rest := Split(name[1..]);
      if name[0] == '/' then [""] + rest else [[name[0]] + rest[0]] + rest[1..]
  }

  function Parent(p: Path): Path {
    if p == [] then [] else p[..|p| - 1]
  }

  /** Where the names lead from `p`: nothing and "." stay, ".." goes up, anything else goes down. */
  function Walk(p: Path, names: seq<string>): Path
    decreases |names|
  {
    if names == [] then p
    else if names[0] == "" || names[0] == "." then Walk(p, names[1..])
    else if names[0] == ".." then Walk(Parent(p), names[1..])
    else Walk(p + [names[0]], names[1..])
  }

  predicate EndsInSlash(name: string) {
    |name| > 0 && name[|name| - 1] == '/'
  }

  /** path.join(base, name), which keeps a '/' at the end. */
  function Join(base: Path, name: string): Path {
    var p := Walk(base, Split(name));
    if EndsInSlash(name) then p + [""] else p
  }

  /** The path ends in '/'. */
  predicate Trailing(p: Path) {
    p != [] && p[|p| - 1] == ""
  }

  /** path.dirname */
  function Dirname(p: Path): Path {
    if Trailing(p) then Parent(Parent(p)) else Parent(p)
  }

  /** The directory that holds the files: the download path, or in there one with the torrent's name. */
  function BasePath(downloadPath: Path, listing: Listing): Path {
    match listing
    case SingleFile(_, _) => downloadPath
    case MultiFile(name, _) => Walk(downloadPath, Split(name))
  }

  function Entries(listing: Listing): seq<(string, nat)> {
    match listing
    case SingleFile(name, length) => [(name, length)]
    case MultiFile(_, entries) => entries
  }

  // ---------------------------------------------------------------- layout

  /** The files lie one after the other from offset zero. */
  ghost predicate Laid(files: seq<FileInfo>) {
    && (files != [] ==> files[0].offset == 0)
    && forall i, j :: 0 <= i < |files| && 0 <= j < |files| && j == i + 1 ==>
         files[j].offset == files[i].offset + files[i].length
  }

  function TotalLength(files: seq<FileInfo>): nat {
    if files == [] then 0 else files[|files| - 1].offset + files[|files| - 1].length
  }

  /** No two files share a path, unless both are empty. */
  ghost predicate DistinctPaths(files: seq<FileInfo>) {
    forall i, j :: 0 <= i < j < |files| && files[i].path == files[j].path ==> files[i].length == files[j].length == 0
  }

  /** The place `q` lies below `p`, so that `p` would have to be a directory. */
  predicate Below(p: Path, q: Path) {
    p != q && p <= q
  }

  /** No file lies where another one needs a directory. */
  ghost predicate NoneBelow(files: seq<FileInfo>) {
    forall i, j :: 0 <= i < |files| && 0 <= j < |files| ==> !Below(files[i].path, files[j].path)
  }

  /** Every file exists with its full length. */
  ghost predicate Allocated(files: seq<FileInfo>, disk: Disk) {
    forall i :: 0 <= i < |files| ==> files[i].path in disk && |disk[files[i].path]| == files[i].length
  }

  ghost function Contents(files: seq<FileInfo>, disk: Disk): (r: seq<bytes>)
    requires Allocated(files, disk)
    ensures |r| == |files|
  {
    seq(|files|, i requires 0 <= i < |files| => disk[files[i].path])
  }

  /** The bytes of all files, one file after the other. */
  ghost function Content(files: seq<FileInfo>, disk: Disk): bytes
    requires Allocated(files, disk)
  {
    Flatten(Contents(files, disk))
  }

  lemma LaidSnoc(files: seq<FileInfo>, f: FileInfo)
    requires Laid(files) && f.offset == TotalLength(files)
    ensures Laid(files + [f]) && TotalLength(files + [f]) == f.offset + f.length
  {
  }

  lemma {:induction false} OffsetsOrdered(files: seq<FileInfo>, i: nat, j: nat)
    requires Laid(files) && i < j < |files|
    ensures files[i].offset + files[i].length <= files[j].offset
    decreases j
  {
    if i + 1 < j {
      OffsetsOrdered(files, i, j - 1);
    }
  }

  /** The last file's bytes come behind those of the others, at its offset. */
  lemma ContentSnoc(files: seq<FileInfo>, disk: Disk)
    requires Laid(files) && Allocated(files, disk) && files != []
    ensures var front, last := files[..|files| - 1], files[|files| - 1];
            && Laid(front) && Allocated(front, disk) && TotalLength(front) == last.offset
            && last.path in disk && |disk[last.path]| == last.length
            && Content(files, disk) == Content(front, disk) + disk[last.path]
  {
    var front, last := files[..|files| - 1], files[|files| - 1];
    assert Contents(files, disk) == Contents(front, disk) + [disk[last.path]];
    FlattenSnoc(Contents(front, disk), disk[last.path]);
  }

  lemma {:induction false} ContentLength(files: seq<FileInfo>, disk: Disk)
    requires Laid(files) && Allocated(files, disk)
    ensures |Content(files, disk)| == TotalLength(files)
  {
    if files != [] {
      hide Content, Laid, Allocated;
      ContentSnoc(files, disk);
      ContentLength(files[..|files| - 1], disk);
    }
  }

  /** Byte `j` of file `i` stands at the file's offset plus `j`. */
  lemma {:induction false} ContentAt(files: seq<FileInfo>, disk: Disk, i: nat, j: nat)
    requires Laid(files) && Allocated(files, disk) && i < |files| && j < files[i].length
    ensures files[i].offset + j < |Content(files, disk)|
    ensures Content(files, disk)[files[i].offset + j] == disk[files[i].path][j]
    decreases |files|
  {
    hide Content, Laid;
    var n := |files| - 1;
    ContentSnoc(files, disk);
    ContentLength(files[..n], disk);
    if i < n {
      ContentAt(files[..n], disk, i, j);
    }
  }

  /** The file that holds an absolute position. */
  lemma {:induction false} FileAt(files: seq<FileInfo>, p: nat) returns (i: nat)
    requires Laid(files) && p < TotalLength(files)
    ensures i < |files| && files[i].offset <= p < files[i].offset + files[i].length
  {
    var n := |files| - 1;
    if files[n].offset <= p {
      i := n;
    } else {
      i := FileAt(files[..n], p);
    }
  }

  // ---------------------------------------------------------------- overlapping files

  function OverlapOf(files: seq<FileInfo>, start: nat, end: nat, i: nat): Overlap
    requires i < |files| && start <= end && start < files[i].offset + files[i].length && end > files[i].offset
  {
    var fileStart, fileEnd := files[i].offset, files[i].offset + files[i].length;
    var overlapStart, overlapEnd := Max(start, fileStart), Min(end, fileEnd);
    Overlap(i, overlapStart - fileStart, overlapEnd - overlapStart)
  }

  /** The parts of the files from `i` on that fall into [start, end), in order. */
  function Overlapping(files: seq<FileInfo>, start: nat, end: nat, i: nat): seq<Overlap>
    requires i <= |files| && start <= end
    decreases |files| - i
  {
    if i == |files| then []
    else
      var fileStart, fileEnd := files[i].offset, files[i].offset + files[i].length;
      if start < fileEnd && end > fileStart then
        [OverlapOf(files, start, end, i)] + Overlapping(files, start, end, i + 1)
      else Overlapping(files, start, end, i + 1)
  }

  function Clamp(x: int, lo: int, hi: int): int {
    Max(lo, Min(x, hi))
  }

  /** `chunk` written over `s` at `at`; a write behind the end extends the file. */
  function Patch(s: bytes, at: nat, chunk: bytes): (r: bytes)
    ensures |r| == Max(|s|, at + |chunk|)
    ensures forall j :: at <= j < at + |chunk| ==> r[j] == chunk[j - at]
    ensures forall j :: 0 <= j < |s| && !(at <= j < at + |chunk|) ==> r[j] == s[j]
  {
    var room := Resize(s, Max(|s|, at + |chunk|));
    room[..at] + chunk + room[at + |chunk|..]
  }

  ghost predicate Exist(files: seq<FileInfo>, disk: Disk) {
    forall i :: 0 <= i < |files| ==> files[i].path in disk
  }

  /** Buffer.slice: positions behind the end are cut off. */
  function Slice(data: bytes, from: nat, to: nat): bytes {
    if from <= to <= |data| then data[from..to] else if from <= |data| && from <= to then data[from..] else []
  }

  /** The effect of writing consecutive parts of `data` from `from` on to the given overlaps. */
  ghost function WriteOverlaps(files: seq<FileInfo>, disk: Disk, os: seq<Overlap>, data: bytes, from: nat): (r: Disk)
    ensures r.Keys == disk.Keys
    decreases |os|
  {
    if os == [] then disk
    else WriteOverlaps(files, WriteOne(files, disk, os[0], data, from), os[1..], data, from + os[0].length)
  }

  function WriteOne(files: seq<FileInfo>, disk: Disk, o: Overlap, data: bytes, from: nat): (r: Disk)
    ensures r.Keys == disk.Keys
  {
    if o.fileIndex < |files| && files[o.fileIndex].path in disk then
      var path := files[o.fileIndex].path;
      disk[path := Patch(disk[path], o.fileOffset, Slice(data, from, from + o.length))]
    else disk
  }

  function SumLengths(os: seq<Overlap>): nat {
    if os == [] then 0 else os[0].length + SumLengths(os[1..])
  }

  /** The overlaps tile the part of the range at or behind file `i`, without gaps. */
  lemma {:induction false} OverlapsTile(files: seq<FileInfo>, start: nat, end: nat, i: nat)
    requires Laid(files) && start <= end && i <= |files|
    ensures SumLengths(Overlapping(files, start, end, i))
         == Clamp(TotalLength(files), start, end)
            - Clamp(if i < |files| then files[i].offset else TotalLength(files), start, end)
    decreases |files| - i
  {
    if i < |files| {
      OverlapsTile(files, start, end, i + 1);
    }
  }

  /** What a byte of a file holds after `data` was written at absolute position `start`. */
  ghost predicate Written(file: FileInfo, was: bytes, now: bytes, start: nat, data: bytes)
    requires |was| == file.length
  {
    |now| == |was| && forall j :: 0 <= j < |was| ==>
      now[j] == if start <= file.offset + j < start + |data| then data[file.offset + j - start] else was[j]
  }

  /** Files before `i` are untouched, the others hold what `data` at `start` leaves in them. */
  ghost predicate WrittenFrom(files: seq<FileInfo>, was: Disk, now: Disk, start: nat, data: bytes, i: nat) {
    && Allocated(files, was) && Exist(files, now)
    && (forall k :: 0 <= k < i && k < |files| ==> now[files[k].path] == was[files[k].path])
    && forall k :: i <= k < |files| ==> Written(files[k], was[files[k].path], now[files[k].path], start, data)
  }

  /** Where in `data` the part for file `i` begins. */
  function DataOffset(files: seq<FileInfo>, i: nat, start: nat, end: nat): int
    requires i <= |files|
  {
    Clamp(if i < |files| then files[i].offset else TotalLength(files), start, end) - start
  }

  lemma DataOffsetStep(files: seq<FileInfo>, start: nat, end: nat, i: nat)
    requires Laid(files) && i < |files| && start <= end
    ensures var f := files[i];
            if start < f.offset + f.length && end > f.offset then
              && DataOffset(files, i, start, end) == Max(start, f.offset) - start
              && DataOffset(files, i + 1, start, end)
                 == DataOffset(files, i, start, end) + OverlapOf(files, start, end, i).length
            else DataOffset(files, i + 1, start, end) == DataOffset(files, i, start, end)
  {
  }

  lemma PatchWritten(f: FileInfo, was: bytes, start: nat, data: bytes)
    requires |was| == f.length && start < f.offset + f.length && start + |data| > f.offset
    ensures var lo, hi := Max(start, f.offset), Min(start + |data|, f.offset + f.length);
            lo <= hi && Written(f, was, Patch(was, lo - f.offset, Slice(data, lo - start, hi - start)), start, data)
  {
    var lo, hi := Max(start, f.offset), Min(start + |data|, f.offset + f.length);
    hide Patch;
    PatchedBytes(was, Patch(was, lo - f.offset, data[lo - start..hi - start]), f.offset, start, data, lo, hi);
  }

  lemma PatchedBytes(was: bytes, now: bytes, offset: nat, start: nat, data: bytes, lo: nat, hi: nat)
    requires start <= lo <= hi <= start + |data| && offset <= lo && hi <= offset + |was| && |now| == |was|
    requires lo == start || lo == offset
    requires hi == start + |data| || hi == offset + |was|
    requires forall j :: 0 <= j < |was| && lo - offset <= j < hi - offset ==>
              now[j] == data[lo - start..hi - start][j - (lo - offset)]
    requires forall j :: 0 <= j < |was| && !(lo - offset <= j < hi - offset) ==> now[j] == was[j]
    ensures forall j :: 0 <= j < |was| ==>
              now[j] == if start <= offset + j < start + |data| then data[offset + j - start] else was[j]
  {
  }

  /** One overlap written: only its file changes, and in it exactly the bytes the data covers. */
  lemma WriteOneWrites(files: seq<FileInfo>, disk: Disk, start: nat, data: bytes, i: nat)
    requires Laid(files) && DistinctPaths(files) && Allocated(files, disk) && i < |files|
    requires start < files[i].offset + files[i].length && start + |data| > files[i].offset
    ensures var o := OverlapOf(files, start, start + |data|, i);
            var from := DataOffset(files, i, start, start + |data|);
            0 <= from && from + o.length == DataOffset(files, i + 1, start, start + |data|)
            && var mid := WriteOne(files, disk, o, data, from);
            && Allocated(files, mid) && Written(files[i], disk[files[i].path], mid[files[i].path], start, data)
            && forall k :: 0 <= k < |files| && k != i ==> mid[files[k].path] == disk[files[k].path]
  {
    hide Patch, Slice, DataOffset;
    DataOffsetStep(files, start, start + |data|, i);
    PatchWritten(files[i], disk[files[i].path], start, data);
  }

  lemma WrittenExtend(files: seq<FileInfo>, was: Disk, mid: Disk, now: Disk, start: nat, data: bytes, i: nat)
    requires Allocated(files, was) && i < |files| && files[i].path in mid
    requires Written(files[i], was[files[i].path], mid[files[i].path], start, data)
    requires Allocated(files, mid)
    requires forall k :: 0 <= k < |files| && k != i ==> mid[files[k].path] == was[files[k].path]
    requires WrittenFrom(files, mid, now, start, data, i + 1)
    ensures WrittenFrom(files, was, now, start, data, i)
  {
    hide Written;
  }

  lemma OverlappingStep(files: seq<FileInfo>, start: nat, end: nat, i: nat)
    requires i < |files| && start <= end
    ensures var f := files[i];
            Overlapping(files, start, end, i)
            == (if start < f.offset + f.length && end > f.offset then [OverlapOf(files, start, end, i)] else [])
               + Overlapping(files, start, end, i + 1)
  {
  }

  lemma WriteOverlapsStep(files: seq<FileInfo>, disk: Disk, o: Overlap, os: seq<Overlap>, data: bytes, from: nat)
    ensures WriteOverlaps(files, disk, [o] + os, data, from)
         == WriteOverlaps(files, WriteOne(files, disk, o, data, from), os, data, from + o.length)
  {
    assert ([o] + os)[1..] == os;
  }

  lemma {:induction false} WriteOverlapsWrites(files: seq<FileInfo>, disk: Disk, start: nat, data: bytes, i: nat)
    requires Laid(files) && DistinctPaths(files) && Allocated(files, disk) && i <= |files|
    ensures var from := DataOffset(files, i, start, start + |data|);
            var os := Overlapping(files, start, start + |data|, i);
            0 <= from && WrittenFrom(files, disk, WriteOverlaps(files, disk, os, data, from), start, data, i)
    decreases |files| - i
  {
    hide WriteOne, Written, Laid, OverlapOf;
    var end := start + |data|;
    DataOffsetBounds(files, start, end, i);
    if i < |files| {
      OverlappingStep(files, start, end, i);
      hide WrittenFrom, DataOffset, Overlapping, WriteOverlaps;
      var f := files[i];
      if start < f.offset + f.length && end > f.offset {
        var o := OverlapOf(files, start, end, i);
        var from := DataOffset(files, i, start, end);
        WriteOneWrites(files, disk, start, data, i);
        var mid := WriteOne(files, disk, o, data, from);
        WriteOverlapsWrites(files, mid, start, data, i + 1);
        var os := Overlapping(files, start, end, i + 1);
        WriteOverlapsStep(files, disk, o, os, data, from);
        WrittenExtend(files, disk, mid, WriteOverlaps(files, mid, os, data, from + o.length), start, data, i);
      } else {
        WriteOverlapsWrites(files, disk, start, data, i + 1);
        DataOffsetStep(files, start, end, i);
        NotWritten(files, disk, start, data, i);
        var os := Overlapping(files, start, end, i + 1);
        var from := DataOffset(files, i + 1, start, end);
        WrittenExtend(files, disk, disk, WriteOverlaps(files, disk, os, data, from), start, data, i);
      }
    }
  }

  lemma NotWritten(files: seq<FileInfo>, disk: Disk, start: nat, data: bytes, i: nat)
    requires Laid(files) && Allocated(files, disk) && i < |files|
    requires !(start < files[i].offset + files[i].length && start + |data| > files[i].offset)
    ensures Written(files[i], disk[files[i].path], disk[files[i].path], start, data)
  {
  }

  /** Writing `data` at `start` replaces exactly that range of the torrent's bytes and no other byte. */
  lemma WriteContent(files: seq<FileInfo>, disk: Disk, start: nat, data: bytes)
    requires Laid(files) && DistinctPaths(files) && Allocated(files, disk)
    ensures var now := WriteOverlaps(files, disk, Overlapping(files, start, start + |data|, 0), data, 0);
            && Allocated(files, now) && |Content(files, now)| == |Content(files, disk)| == TotalLength(files)
            && forall p :: 0 <= p < TotalLength(files) ==>
                 Content(files, now)[p]
                 == (if start <= p < start + |data| then data[p - start] else Content(files, disk)[p])
  {
    var now := WriteOverlaps(files, disk, Overlapping(files, start, start + |data|, 0), data, 0);
    assert DataOffset(files, 0, start, start + |data|) == 0;
    WriteOverlapsWrites(files, disk, start, data, 0);
    ContentLength(files, disk);
    ContentLength(files, now);
    forall p | 0 <= p < TotalLength(files)
      ensures Content(files, now)[p]
           == (if start <= p < start + |data| then data[p - start] else Content(files, disk)[p])
    {
      WrittenContentAt(files, disk, now, start, data, p);
    }
  }

  lemma StaysAllocated(files: seq<FileInfo>, disk: Disk, start: nat, data: bytes)
    requires Laid(files) && DistinctPaths(files) && Allocated(files, disk)
    ensures Allocated(files, WriteOverlaps(files, disk, Overlapping(files, start, start + |data|, 0), data, 0))
  {
    hide Laid, DistinctPaths, Allocated, WriteOverlaps, Overlapping;
    WriteContent(files, disk, start, data);
  }

  lemma WrittenContentAt(files: seq<FileInfo>, was: Disk, now: Disk, start: nat, data: bytes, p: nat)
    requires Laid(files) && Allocated(files, was) && Allocated(files, now) && p < TotalLength(files)
    requires WrittenFrom(files, was, now, start, data, 0)
    ensures p < |Content(files, now)| && p < |Content(files, was)|
    ensures Content(files, now)[p] == if start <= p < start + |data| then data[p - start] else Content(files, was)[p]
  {
    hide Content;
    var i := FileAt(files, p);
    ContentAt(files, was, i, p - files[i].offset);
    ContentAt(files, now, i, p - files[i].offset);
  }

  function ReadOne(files: seq<FileInfo>, disk: Disk, o: Overlap): bytes {
    if o.fileIndex < |files| && files[o.fileIndex].path in disk then
      Slice(disk[files[o.fileIndex].path], o.fileOffset, o.fileOffset + o.length)
    else []
  }

  function ReadOverlaps(files: seq<FileInfo>, disk: Disk, os: seq<Overlap>): bytes {
    if os == [] then [] else ReadOne(files, disk, os[0]) + ReadOverlaps(files, disk, os[1..])
  }

  lemma ReadOneReads(files: seq<FileInfo>, disk: Disk, start: nat, end: nat, i: nat)
    requires Laid(files) && Allocated(files, disk) && i < |files| && start <= end
    requires start < files[i].offset + files[i].length && end > files[i].offset
    ensures var lo, hi := Max(start, files[i].offset), Min(end, files[i].offset + files[i].length);
            lo <= hi <= |Content(files, disk)|
            && ReadOne(files, disk, OverlapOf(files, start, end, i)) == Content(files, disk)[lo..hi]
  {
    var f := files[i];
    var lo, hi := Max(start, f.offset), Min(end, f.offset + f.length);
    var c := ReadOne(files, disk, OverlapOf(files, start, end, i));
    if f.length > 0 {
      ContentAt(files, disk, i, f.length - 1);
    } else {
      ContentLength(files, disk);
      OffsetsBelowTotal(files, i);
    }
    forall k | 0 <= k < hi - lo ensures c[k] == Content(files, disk)[lo + k] {
      ContentAt(files, disk, i, lo - f.offset + k);
    }
  }

  lemma OffsetsBelowTotal(files: seq<FileInfo>, i: nat)
    requires Laid(files) && i < |files|
    ensures files[i].offset + files[i].length <= TotalLength(files)
  {
    if i < |files| - 1 {
      OffsetsOrdered(files, i, |files| - 1);
    }
  }

  lemma DataOffsetBounds(files: seq<FileInfo>, start: nat, end: nat, i: nat)
    requires i <= |files| && start <= end
    ensures 0 <= DataOffset(files, i, start, end) <= end - start
    ensures i == |files| && end <= TotalLength(files) ==> DataOffset(files, i, start, end) == end - start
  {
  }

  lemma OverlapLength(files: seq<FileInfo>, start: nat, end: nat, i: nat)
    requires i < |files| && start <= end && start < files[i].offset + files[i].length && end > files[i].offset
    ensures OverlapOf(files, start, end, i).length
         == Min(end, files[i].offset + files[i].length) - Max(start, files[i].offset)
  {
  }

  /** Reading the overlaps of a range gives that range of the torrent's bytes. */
  lemma {:induction false} ReadContent(files: seq<FileInfo>, disk: Disk, start: nat, end: nat, i: nat)
    requires Laid(files) && Allocated(files, disk) && i <= |files| && start <= end <= TotalLength(files)
    ensures |Content(files, disk)| == TotalLength(files)
    ensures var from := start + DataOffset(files, i, start, end);
            start <= from <= end
            && ReadOverlaps(files, disk, Overlapping(files, start, end, i)) == Content(files, disk)[from..end]
    decreases |files| - i
  {
    hide ReadOne, ReadOverlaps, OverlapOf, Content, Allocated, Laid, DataOffset, Min, Max, TotalLength;
    NothingRead(files, disk);
    ContentLength(files, disk);
    DataOffsetBounds(files, start, end, i);
    if i < |files| {
      ReadContent(files, disk, start, end, i + 1);
      DataOffsetBounds(files, start, end, i + 1);
      DataOffsetStep(files, start, end, i);
      var f := files[i];
      if start < f.offset + f.length && end > f.offset {
        ReadOneReads(files, disk, start, end, i);
        OverlapLength(files, start, end, i);
        var o, os := OverlapOf(files, start, end, i), Overlapping(files, start, end, i + 1);
        ReadOverlapsCons(files, disk, o, os);
        var lo := start + DataOffset(files, i, start, end);
        SliceJoin(Content(files, disk), lo, lo + o.length, end);
      }
    }
  }

  lemma NothingRead(files: seq<FileInfo>, disk: Disk)
    ensures ReadOverlaps(files, disk, []) == []
  {
  }

  lemma ReadOverlapsCons(files: seq<FileInfo>, disk: Disk, o: Overlap, os: seq<Overlap>)
    ensures ReadOverlaps(files, disk, [o] + os) == ReadOne(files, disk, o) + ReadOverlaps(files, disk, os)
  {
    assert ([o] + os)[1..] == os;
  }

  lemma SliceJoin(s: bytes, lo: nat, mid: nat, hi: nat)
    requires lo <= mid <= hi <= |s|
    ensures s[lo..mid] + s[mid..hi] == s[lo..hi]
  {
  }

  // ---------------------------------------------------------------- the writer

  /** Torrent data of `total` bytes in `count` pieces of `n` bytes, the last one possibly shorter. */
  ghost predicate Geometry(total: nat, n: nat, count: nat) {
    0 < n && 0 < count && (count - 1) * n <= total <= count * n
  }

  function PieceLength(total: nat, n: nat, count: nat, i: nat): int {
    if i == count - 1 then total - i * n else n
  }

  lemma PieceInside(total: nat, n: nat, count: nat, i: nat)
    requires Geometry(total, n, count) && i < count
    ensures 0 <= i * n && 0 <= PieceLength(total, n, count, i) <= n && i * n + PieceLength(total, n, count, i) <= total
    ensures i * n + PieceLength(total, n, count, i) == Min((i + 1) * n, total)
  {
    MulNat(i, n);
    assert (i + 1) * n == i * n + n;
    if i < count - 1 {
      MulMono(i + 1, count - 1, n);
    }
  }

  function InitOne(f: FileInfo, disk: Disk): (r: Disk)
    ensures r.Keys == disk.Keys + {f.path}
  {
    disk[f.path := if f.path in disk then Resize(disk[f.path], f.length) else ZeroBytes(f.length)]
  }

  lemma InitOneIs(f: FileInfo, disk: Disk)
    ensures var r := InitOne(f, disk);
            && f.path in r && |r[f.path]| == f.length
            && (f.path in disk && |disk[f.path]| == f.length ==> r[f.path] == disk[f.path])
            && forall q :: q in disk && q != f.path ==> q in r && r[q] == disk[q]
  {
  }

  /** A file stands at or above `p`. */
  predicate FileOnTheWay(disk: Disk, p: Path) {
    exists q :: q in disk && q <= p
  }

  /** `p` and everything above it. */
  function Upwards(p: Path): set<Path> {
    set k | 0 <= k <= |p| :: p[..k]
  }

  /** mkdir with all directories on the way, unless a file is in the way. */
  function MakeDirectory(t: Tree, p: Path): (Tree, bool) {
    if FileOnTheWay(t.files, p) then (t, false) else (t.(dirs := t.dirs + Upwards(p)), true)
  }

  /** The directory of one file is made and the file created or resized; opening a directory as a file fails. */
  function CreateFile(f: FileInfo, t: Tree): (Tree, bool) {
    var (d, ok) := MakeDirectory(t, Dirname(f.path));
    if !ok || f.path in d.dirs || Trailing(f.path) then (d, false) else (d.(files := InitOne(f, d.files)), true)
  }

  /** The files created one after the other, up to the first that fails, and whether none did. */
  function CreateFiles(files: seq<FileInfo>, t: Tree): (Tree, bool) {
    if files == [] then (t, true)
    else
      var (d, ok) := CreateFiles(files[..|files| - 1], t);
      if !ok then (d, false) else CreateFile(files[|files| - 1], d)
  }

  /** First the base directory, then the files. */
  function InitAll(base: Path, files: seq<FileInfo>, t: Tree): (Tree, bool) {
    var (d, ok) := MakeDirectory(t, base);
    if !ok then (d, false) else CreateFiles(files, d)
  }

  lemma DistinctFront(files: seq<FileInfo>)
    requires DistinctPaths(files) && files != []
    ensures var front := files[..|files| - 1];
            && DistinctPaths(front)
            && (forall i :: 0 <= i < |front| ==> front[i] == files[i])
            && forall i :: 0 <= i < |front| && front[i].path == files[|files| - 1].path ==>
                 front[i].length == files[|files| - 1].length == 0
  {
  }

  /** The file is there with its full length. */
  predicate Fits(disk: Disk, f: FileInfo) {
    f.path in disk && |disk[f.path]| == f.length
  }

  /** Every file has its length; one that already had it keeps its bytes, and so does every file not listed. */
  ghost predicate Made(files: seq<FileInfo>, was: Disk, now: Disk) {
    && Allocated(files, now)
    && (forall i :: 0 <= i < |files| && Fits(was, files[i]) ==> now[files[i].path] == was[files[i].path])
    && (forall q :: q in was && (forall i :: 0 <= i < |files| ==> files[i].path != q) ==> q in now && now[q] == was[q])
  }

  lemma MadeOne(files: seq<FileInfo>, was: Disk, mid: Disk)
    requires files != [] && DistinctPaths(files) && Made(files[..|files| - 1], was, mid)
    ensures Made(files, was, InitOne(files[|files| - 1], mid))
  {
    hide InitOne, DistinctPaths;
    DistinctFront(files);
    InitOneIs(files[|files| - 1], mid);
  }

  lemma {:induction false} CreateAllocates(files: seq<FileInfo>, t: Tree)
    requires DistinctPaths(files) && CreateFiles(files, t).1
    ensures Made(files, t.files, CreateFiles(files, t).0.files)
  {
    if files != [] {
      hide CreateFile, DistinctPaths, Made;
      var front := files[..|files| - 1];
      DistinctFront(files);
      CreateAllocates(front, t);
      CreatesOne(files[|files| - 1], CreateFiles(front, t).0);
      MadeOne(files, t.files, CreateFiles(front, t).0.files);
    }
  }

  /** After initialization every file has its length; one that already had it keeps its bytes. */
  lemma InitAllocates(base: Path, files: seq<FileInfo>, t: Tree)
    requires DistinctPaths(files) && InitAll(base, files, t).1
    ensures var r := InitAll(base, files, t).0.files;
            && Allocated(files, r)
            && (forall i :: 0 <= i < |files| && Fits(t.files, files[i]) ==> r[files[i].path] == t.files[files[i].path])
            && (forall q :: q in t.files && (forall i :: 0 <= i < |files| ==> files[i].path != q) ==>
                  q in r && r[q] == t.files[q])
  {
    hide CreateFiles, Allocated;
    CreateAllocates(files, MakeDirectory(t, base).0);
  }

  lemma CreatesOne(f: FileInfo, t: Tree)
    requires CreateFile(f, t).1
    ensures CreateFile(f, t).0 == Tree(InitOne(f, t.files), t.dirs + Upwards(Dirname(f.path)))
  {
  }

  function Places(files: seq<FileInfo>): set<Path> {
    if files == [] then {} else Places(files[..|files| - 1]) + {files[|files| - 1].path}
  }

  lemma {:induction false} PlaceOf(files: seq<FileInfo>, q: Path)
    ensures q in Places(files) <==> exists i :: 0 <= i < |files| && files[i].path == q
  {
    if files != [] {
      var front := files[..|files| - 1];
      PlaceOf(front, q);
      if i :| 0 <= i < |front| && front[i].path == q { assert files[i].path == q; }
      if i :| 0 <= i < |files| && files[i].path == q {
        if i < |front| { assert front[i].path == q; }
      }
    }
  }

  /** The directories that the files are put into, and those above. */
  function Folders(files: seq<FileInfo>): set<Path> {
    if files == [] then {} else Folders(files[..|files| - 1]) + Upwards(Dirname(files[|files| - 1].path))
  }

  /** No file ends in '/', and none is the root. */
  ghost predicate Named(files: seq<FileInfo>) {
    forall i :: 0 <= i < |files| ==> files[i].path != [] && !Trailing(files[i].path)
  }

  lemma {:induction false} FolderOf(files: seq<FileInfo>, q: Path)
    requires Named(files)
    ensures q in Folders(files) <==> exists i :: 0 <= i < |files| && Below(q, files[i].path)
  {
    if files != [] {
      var front, p := files[..|files| - 1], files[|files| - 1].path;
      assert Named(front) by { assert forall i :: 0 <= i < |front| ==> front[i] == files[i]; }
      FolderOf(front, q);
      UpwardsIff(p, q);
      if i :| 0 <= i < |front| && Below(q, front[i].path) { assert Below(q, files[i].path); }
      if i :| 0 <= i < |files| && Below(q, files[i].path) {
        if i < |front| { assert Below(q, front[i].path); }
      }
    }
  }

  lemma UpwardsIff(p: Path, q: Path)
    requires p != []
    ensures q in Upwards(Parent(p)) <==> Below(q, p)
    ensures q <= Parent(p) <==> Below(q, p)
  {
    if Below(q, p) { assert q == Parent(p)[..|q|]; }
  }

  lemma {:induction false} CreatedNodes(files: seq<FileInfo>, t: Tree)
    requires CreateFiles(files, t).1
    ensures CreateFiles(files, t).0.files.Keys == t.files.Keys + Places(files)
    ensures CreateFiles(files, t).0.dirs == t.dirs + Folders(files)
  {
    if files != [] {
      hide CreateFile, Dirname, Upwards;
      CreatedNodes(files[..|files| - 1], t);
      CreatesOne(files[|files| - 1], CreateFiles(files[..|files| - 1], t).0);
    }
  }

  /** No directory stands where a file belongs, and no file above it. */
  predicate Free(t: Tree, p: Path) {
    p !in t.dirs && forall q :: q in t.files ==> !Below(q, p)
  }

  predicate NoneInTheWay(t: Tree, files: seq<FileInfo>) {
    forall i :: 0 <= i < |files| ==> Free(t, files[i].path)
  }

  lemma CreateIff(f: FileInfo, t: Tree)
    ensures CreateFile(f, t).1 <==> f.path != [] && !Trailing(f.path) && Free(t, f.path)
  {
    if f.path == [] {
      assert f.path[..0] == f.path && f.path in Upwards(f.path);
    } else if !Trailing(f.path) {
      UpwardsIff(f.path, f.path);
      forall q ensures q <= Parent(f.path) <==> Below(q, f.path) { UpwardsIff(f.path, q); }
    }
  }

  lemma {:induction false} CreateSucceedsIff(files: seq<FileInfo>, t: Tree)
    ensures CreateFiles(files, t).1
       <==> Named(files) && NoneBelow(files) && NoneInTheWay(t, files)
  {
    if files != [] {
      hide CreateFile, Named, NoneBelow, NoneInTheWay, Free, Touches, Trailing;
      var front, f := files[..|files| - 1], files[|files| - 1];
      CreateSucceedsIff(front, t);
      FrontFits(files, t);
      if CreateFiles(front, t).1 {
        CreateIff(f, CreateFiles(front, t).0);
        FreeIff(front, t, f.path);
      }
    }
  }

  lemma FreeIff(files: seq<FileInfo>, t: Tree, p: Path)
    requires Named(files) && CreateFiles(files, t).1
    ensures Free(CreateFiles(files, t).0, p) <==> Free(t, p) && !Touches(files, p)
  {
    hide CreateFiles, Below, Named;
    CreatedNodes(files, t);
    var d := CreateFiles(files, t).0;
    FolderOf(files, p);
    if i :| 0 <= i < |files| && Below(files[i].path, p) {
      PlaceOf(files, files[i].path);
      assert files[i].path in d.files;
    }
    if q :| q in d.files && Below(q, p) { PlaceOf(files, q); }
  }

  /** One of the files lies above or below `p`. */
  ghost predicate Touches(files: seq<FileInfo>, p: Path) {
    exists i :: 0 <= i < |files| && (Below(files[i].path, p) || Below(p, files[i].path))
  }

  lemma FrontFits(files: seq<FileInfo>, t: Tree)
    requires files != []
    ensures var front, p := files[..|files| - 1], files[|files| - 1].path;
            && (NoneBelow(files) <==> NoneBelow(front) && !Touches(front, p))
            && (Named(files) <==> Named(front) && p != [] && !Trailing(p))
            && (NoneInTheWay(t, files) <==> NoneInTheWay(t, front) && Free(t, p))
  {
    hide Trailing, Free;
    var front, p := files[..|files| - 1], files[|files| - 1].path;
    if NoneBelow(files) {
      forall i, j | 0 <= i < |front| && 0 <= j < |front| ensures !Below(front[i].path, front[j].path) {
        assert front[i] == files[i] && front[j] == files[j];
      }
      forall i | 0 <= i < |front| ensures !Below(front[i].path, p) && !Below(p, front[i].path) {
        assert front[i] == files[i];
      }
    }
    if NoneBelow(front) && !Touches(front, p) {
      forall i, j | 0 <= i < |files| && 0 <= j < |files| ensures !Below(files[i].path, files[j].path) {
        if i < |front| { assert front[i] == files[i]; }
        if j < |front| { assert front[j] == files[j]; }
      }
    }
  }

  /**
   The places of the files fit together: none is the base directory or above it, ends in '/' or lies below another.
   */
  ghost predicate PlacesFit(base: Path, files: seq<FileInfo>) {
    NoneBelow(files) && forall i :: 0 <= i < |files| ==> !(files[i].path <= base) && !Trailing(files[i].path)
  }

  /**
   Initialization succeeds, on any disk, exactly when the places of the files fit together, no file on the disk is at or
   above the base directory or above a file of the torrent, and no directory is where one of these files belongs.
   */
  lemma InitSucceedsIff(base: Path, files: seq<FileInfo>, t: Tree)
    ensures InitAll(base, files, t).1
       <==> PlacesFit(base, files) && !FileOnTheWay(t.files, base) && NoneInTheWay(t, files)
  {
    hide CreateFiles, NoneBelow, FileOnTheWay, Trailing, Below;
    var d := MakeDirectory(t, base).0;
    CreateSucceedsIff(files, d);
    forall i | 0 <= i < |files| ensures files[i].path in Upwards(base) <==> files[i].path <= base {
      var p := files[i].path;
      if p <= base { assert p == base[..|p|]; }
    }
    assert [] <= base;
  }

  // ---------------------------------------------------------------- names that are no files

  /** Every part of the name is empty, "." or "..". */
  predicate OnlyDots(names: seq<string>) {
    forall c <- names :: c == "" || c == "." || c == ".."
  }

  lemma {:induction false} DotsLeadUp(p: Path, names: seq<string>)
    requires OnlyDots(names)
    ensures Walk(p, names) <= p
    decreases |names|
  {
    if names != [] {
      assert names[0] in names && forall c <- names[1..] :: c in names;
      DotsLeadUp(if names[0] == ".." then Parent(p) else p, names[1..]);
    }
  }

  /**
   A list of one file that nothing rejects and no disk can take: its name is empty, "." or "..", parts of this kind
   joined by '/', or ends in '/'. It uses no place twice and none of its files lies below another.
   */
  lemma NoFileThere(base: Path, name: string, length: nat, t: Tree)
    requires OnlyDots(Split(name)) || EndsInSlash(name)
    ensures var files := [FileInfo(Join(base, name), length, 0)];
            DistinctPaths(files) && NoneBelow(files) && !InitAll(base, files, t).1
  {
    hide Join, InitAll, OnlyDots, Split, EndsInSlash;
    var files := [FileInfo(Join(base, name), length, 0)];
    DirectoryName(base, name);
    NotThere(base, files, t);
  }

  lemma DirectoryName(base: Path, name: string)
    requires OnlyDots(Split(name)) || EndsInSlash(name)
    ensures Join(base, name) <= base || Trailing(Join(base, name))
  {
    hide Walk, Split, OnlyDots, EndsInSlash;
    if !EndsInSlash(name) { DotsLeadUp(base, Split(name)); }
  }

  lemma NotThere(base: Path, files: seq<FileInfo>, t: Tree)
    requires |files| == 1 && (files[0].path <= base || Trailing(files[0].path))
    ensures !InitAll(base, files, t).1
  {
    hide InitAll, Trailing, FileOnTheWay, NoneInTheWay;
    InitSucceedsIff(base, files, t);
  }

  /** A failure is final. */
  lemma {:induction false} CreateStops(files: seq<FileInfo>, t: Tree, i: nat)
    requires i <= |files| && !CreateFiles(files[..i], t).1
    ensures CreateFiles(files, t) == CreateFiles(files[..i], t)
    decreases |files|
  {
    if i == |files| {
      assert files[..i] == files;
    } else {
      assert files[..|files| - 1][..i] == files[..i];
      CreateStops(files[..|files| - 1], t, i);
    }
  }

  function Credit(progress: seq<Progress>, os: seq<Overlap>): (r: seq<Progress>)
    ensures |r| == |progress| && forall i :: 0 <= i < |r| ==> r[i].size == progress[i].size
    decreases |os|
  {
    if os == [] then progress
    else if os[0].fileIndex < |progress| then
      Credit(progress[os[0].fileIndex := CreditOne(progress[os[0].fileIndex], os[0].length)], os[1..])
    else Credit(progress, os[1..])
  }

  /** One more overlap written and credited. */
  lemma ChunkStep(files: seq<FileInfo>, disk: Disk, progress: seq<Progress>, os: seq<Overlap>, k: nat, data: bytes,
                  from: nat)
    requires k < |os|
    ensures WriteOverlaps(files, disk, os[k..], data, from)
         == WriteOverlaps(files, WriteOne(files, disk, os[k], data, from), os[k + 1..], data, from + os[k].length)
    ensures var o := os[k];
            var next := if o.fileIndex < |progress| then
                          progress[o.fileIndex := CreditOne(progress[o.fileIndex], o.length)]
                        else progress;
            Credit(progress, os[k..]) == Credit(next, os[k + 1..])
  {
    hide WriteOne, CreditOne;
    assert os[k..] == [os[k]] + os[k + 1..];
    WriteOverlapsStep(files, disk, os[k], os[k + 1..], data, from);
    assert ([os[k]] + os[k + 1..])[1..] == os[k + 1..];
  }

  lemma ChunksDone(files: seq<FileInfo>, disk: Disk, progress: seq<Progress>, data: bytes, from: nat)
    ensures WriteOverlaps(files, disk, [], data, from) == disk && Credit(progress, []) == progress
  {
  }

  function CreditOne(p: Progress, bytesWritten: nat): Progress {
    Progress(p.downloaded + bytesWritten, p.size, p.downloaded + bytesWritten >= p.size)
  }

  class FileWriter {
    const basePath: Path
    const files: seq<FileInfo>
    const pieceLength: nat
    const numPieces: nat
    const totalLength: nat
    var disk: Disk
    var dirs: set<Path>
    var isInitialized: bool
    var fileProgress: seq<Progress>
    var filePieceMap: seq<PieceRange>

    ghost predicate Valid()
      reads this
    {
      && 0 < pieceLength && Laid(files) && totalLength == TotalLength(files)
      && |fileProgress| == |files| && |filePieceMap| == |files|
      && (forall i :: 0 <= i < |files| ==> fileProgress[i].size == files[i].length)
      && (forall i :: 0 <= i < |files| ==> filePieceMap[i] == RangeOf(files[i], pieceLength))
      && (isInitialized && DistinctPaths(files) ==> Allocated(files, disk))
    }

    constructor (downloadPath: Path, listing: Listing, pieceLength: nat, numPieces: nat, disk: Disk, dirs: set<Path>)
      requires 0 < pieceLength
      ensures Valid() && this.disk == disk && this.dirs == dirs && !isInitialized
      ensures basePath == BasePath(downloadPath, listing)
      ensures this.pieceLength == pieceLength && this.numPieces == numPieces && |files| == |Entries(listing)|
      ensures forall i :: 0 <= i < |files| ==>
                var (name, length) := Entries(listing)[i];
                && files[i].path == Join(basePath, name) && files[i].length == length
                && fileProgress[i] == Progress(0, length, false)
    {
      var base := BasePath(downloadPath, listing);
      var built := BuildFileMap(base, listing);
      var progress, ranges := InitializeProgressTracking(built, pieceLength);
      this.basePath, this.files, this.pieceLength, this.numPieces := base, built, pieceLength, numPieces;
      this.totalLength, this.disk, this.dirs, this.isInitialized := TotalLength(built), disk, dirs, false;
      this.fileProgress, this.filePieceMap := progress, ranges;
    }

    static method BuildFileMap(base: Path, listing: Listing) returns (built: seq<FileInfo>)
      ensures |built| == |Entries(listing)| && Laid(built)
      ensures forall k :: 0 <= k < |built| ==>
                var (name, length) := Entries(listing)[k];
                built[k].path == Join(base, name) && built[k].length == length
    {
      hide Join;
      if listing.SingleFile? { return [FileInfo(Join(base, listing.name), listing.length, 0)]; }
      var entries := listing.entries;
      built := [];
      var offset := 0;
      for i := 0 to |entries|
        invariant |built| == i && Laid(built) && offset == TotalLength(built)
        invariant forall k :: 0 <= k < i ==>
                  built[k].path == Join(base, entries[k].0) && built[k].length == entries[k].1
      {
        LaidSnoc(built, FileInfo(Join(base, entries[i].0), entries[i].1, offset));
        hide Laid, TotalLength;
        built := built + [FileInfo(Join(base, entries[i].0), entries[i].1, offset)];
        offset := offset + entries[i].1;
      }
    }

    static method InitializeProgressTracking(files: seq<FileInfo>, pieceLength: nat)
      returns (progress: seq<Progress>, ranges: seq<PieceRange>)
      requires 0 < pieceLength
      ensures |progress| == |ranges| == |files|
      ensures forall k :: 0 <= k < |files| ==> progress[k] == Progress(0, files[k].length, false)
      ensures forall k :: 0 <= k < |files| ==> ranges[k] == RangeOf(files[k], pieceLength)
    {
      progress, ranges := [], [];
      for fileIndex := 0 to |files|
        invariant |progress| == |ranges| == fileIndex
        invariant forall k :: 0 <= k < fileIndex ==> progress[k] == Progress(0, files[k].length, false)
        invariant forall k :: 0 <= k < fileIndex ==> ranges[k] == RangeOf(files[k], pieceLength)
      {
        var file := files[fileIndex];
        progress := progress + [Progress(0, file.length, false)];
        var firstPiece := file.offset / pieceLength;
        var lastPiece := (file.offset + file.length - 1) / pieceLength;
        var pieces := CollectPieces(firstPiece, lastPiece);
        ranges := ranges + [PieceRange(firstPiece, lastPiece, pieces)];
      }
    }

    static method CollectPieces(firstPiece: int, lastPiece: int) returns (pieces: set<int>)
      ensures pieces == PieceSet(firstPiece, lastPiece)
    {
      pieces := {};
      var i := firstPiece;
      while i <= lastPiece
        invariant firstPiece <= i && pieces == PieceSet(firstPiece, i - 1)
        invariant i <= lastPiece + 1 || i == firstPiece
        decreases lastPiece + 1 - i
      {
        pieces := pieces + {i};
        i := i + 1;
      }
    }

    /** Fails, and stays uninitialized, when something is in the way of the base directory or of a file. */
    method Initialize() returns (ok: bool)
      requires Valid()
      modifies this`disk, this`dirs, this`isInitialized
      ensures Valid() && isInitialized == ok
      ensures (Tree(disk, dirs), ok) ==
              if old(isInitialized) then (old(Tree(disk, dirs)), true)
              else InitAll(basePath, files, old(Tree(disk, dirs)))
    {
      if isInitialized { return true; }
      ok := Mkdir(basePath);
      if !ok { return; }
      ok := CreateAll();
      if !ok { return; }
      isInitialized := true;
      if DistinctPaths(files) {
        InitAllocates(basePath, files, old(Tree(disk, dirs)));
      }
    }

    /** The loop of initialize. */
    method CreateAll() returns (ok: bool)
      modifies this`disk, this`dirs
      ensures (Tree(disk, dirs), ok) == CreateFiles(files, old(Tree(disk, dirs)))
    {
      hide CreateFile;
      ghost var start := Tree(disk, dirs);
      for i := 0 to |files|
        modifies this`disk, this`dirs
        invariant (Tree(disk, dirs), true) == CreateFiles(files[..i], start)
      {
        assert files[..i + 1][..i] == files[..i];
        ok := CreateOne(i);
        if !ok {
          CreateStops(files, start, i + 1);
          return;
        }
      }
      assert files[..|files|] == files;
      ok := true;
    }

    method CreateOne(i: nat) returns (ok: bool)
      requires i < |files|
      modifies this`disk, this`dirs
      ensures (Tree(disk, dirs), ok) == CreateFile(files[i], old(Tree(disk, dirs)))
    {
      hide MakeDirectory, InitOne;
      var filePath := files[i].path;
      ok := Mkdir(Dirname(filePath));
      if !ok || filePath in dirs || Trailing(filePath) { return false; }
      disk := InitOne(files[i], disk);
    }

    method Mkdir(p: Path) returns (ok: bool)
      modifies this`dirs
      ensures (Tree(disk, dirs), ok) == MakeDirectory(old(Tree(disk, dirs)), p)
    {
      if FileOnTheWay(disk, p) { return false; }
      dirs := dirs + Upwards(p);
      return true;
    }

    method GetOverlappingFiles(start: nat, end: nat) returns (overlapping: seq<Overlap>)
      requires start <= end
      ensures overlapping == Overlapping(files, start, end, 0)
    {
      overlapping := [];
      for i := 0 to |files|
        invariant overlapping + Overlapping(files, start, end, i) == Overlapping(files, start, end, 0)
      {
        var file := files[i];
        var fileStart, fileEnd := file.offset, file.offset + file.length;
        if start < fileEnd && end > fileStart {
          var overlapStart, overlapEnd := Max(start, fileStart), Min(end, fileEnd);
          overlapping := overlapping + [Overlap(i, overlapStart - fileStart, overlapEnd - overlapStart)];
        }
      }
    }

    method WritePiece(pieceIndex: nat, data: bytes) returns (ok: bool)
      requires Valid()
      modifies this`disk, this`dirs, this`isInitialized, this`fileProgress
      ensures Valid() && isInitialized == ok
      ensures var (ready, done) :=
                if old(isInitialized) then (old(Tree(disk, dirs)), true)
                else InitAll(basePath, files, old(Tree(disk, dirs)));
              var start := pieceIndex * pieceLength;
              && ok == done && dirs == ready.dirs && 0 <= start
              && var os := Overlapping(files, start, start + |data|, 0);
              && disk == (if ok then WriteOverlaps(files, ready.files, os, data, 0) else ready.files)
              && fileProgress == (if ok then Credit(old(fileProgress), os) else old(fileProgress))
    {
      hide InitAll, Overlapping, Credit, WriteOverlaps, RangeOf, Laid, TotalLength, Allocated, DistinctPaths;
      ok := Initialize();
      MulNat(pieceIndex, pieceLength);
      if !ok { return; }
      var pieceOffset: nat := pieceIndex * pieceLength;
      var pieceEnd := pieceOffset + |data|;
      var overlappingFiles := GetOverlappingFiles(pieceOffset, pieceEnd);
      ghost var ready := disk;
      WriteChunks(overlappingFiles, data);
      if DistinctPaths(files) {
        StaysAllocated(files, ready, pieceOffset, data);
      }
    }

    method WriteChunks(overlappingFiles: seq<Overlap>, data: bytes)
      requires |fileProgress| == |files|
      modifies this`disk, this`fileProgress
      ensures disk == WriteOverlaps(files, old(disk), overlappingFiles, data, 0)
      ensures fileProgress == Credit(old(fileProgress), overlappingFiles)
    {
      hide WriteOne, WriteOverlaps, Credit, CreditOne;
      var dataOffset: nat := 0;
      ghost var end := WriteOverlaps(files, disk, overlappingFiles, data, 0);
      ghost var credited := Credit(fileProgress, overlappingFiles);
      assert overlappingFiles[0..] == overlappingFiles;
      for k := 0 to |overlappingFiles|
        invariant WriteOverlaps(files, disk, overlappingFiles[k..], data, dataOffset) == end
        invariant Credit(fileProgress, overlappingFiles[k..]) == credited
      {
        var o := overlappingFiles[k];
        ChunkStep(files, disk, fileProgress, overlappingFiles, k, data, dataOffset);
        disk := WriteOne(files, disk, o, data, dataOffset);
        dataOffset := dataOffset + o.length;
        if o.fileIndex < |fileProgress| {
          fileProgress := fileProgress[o.fileIndex := CreditOne(fileProgress[o.fileIndex], o.length)];
        }
      }
      assert overlappingFiles[|overlappingFiles|..] == [];
      ChunksDone(files, disk, fileProgress, data, dataOffset);
    }

    /** Buffer.concat(buffers, actualLength) cuts off or fills up with zeros. */
    method ReadPiece(pieceIndex: nat) returns (data: Option<bytes>)
      requires Valid() && 0 <= PieceLength(totalLength, pieceLength, numPieces, pieceIndex)
      modifies this`disk, this`dirs, this`isInitialized
      ensures Valid() && isInitialized == data.Some?
      ensures (Tree(disk, dirs), data.Some?) ==
              if old(isInitialized) then (old(Tree(disk, dirs)), true)
              else InitAll(basePath, files, old(Tree(disk, dirs)))
      ensures data.Some? ==>
                var start := pieceIndex * pieceLength;
                var length := PieceLength(totalLength, pieceLength, numPieces, pieceIndex);
                && 0 <= start
                && data.value == Resize(ReadOverlaps(files, disk, Overlapping(files, start, start + length, 0)), length)
    {
      hide Overlapping, ReadOverlaps, Resize, InitAll;
      var ok := Initialize();
      if !ok { return None; }
      MulNat(pieceIndex, pieceLength);
      var isLastPiece := pieceIndex == numPieces - 1;
      var actualLength := if isLastPiece then totalLength - pieceIndex * pieceLength else pieceLength;
      var pieceOffset: nat := pieceIndex * pieceLength;
      var overlappingFiles := GetOverlappingFiles(pieceOffset, pieceOffset + actualLength);
      var all := ReadChunks(overlappingFiles);
      data := Some(Resize(all, actualLength));
    }

    method RecalculateFileProgress(completedPieces: set<nat>)
      requires Valid() && totalLength <= numPieces * pieceLength
      modifies this`fileProgress
      ensures Valid()
      ensures forall f :: 0 <= f < |files| ==>
                var d := Downloaded(files[f], totalLength, pieceLength, completedPieces, numPieces);
                fileProgress[f] == Progress(d, files[f].length, d >= files[f].length)
    {
      for fileIndex := 0 to |files|
        invariant Valid()
        invariant forall f :: 0 <= f < fileIndex ==>
                    var d := Downloaded(files[f], totalLength, pieceLength, completedPieces, numPieces);
                    fileProgress[f] == Progress(d, files[f].length, d >= files[f].length)
      {
        hide Downloaded, Shared, RangeOf, Laid, Allocated, DistinctPaths, TotalLength;
        var downloadedBytes := DownloadedBytes(files[fileIndex], completedPieces);
        var progress := fileProgress[fileIndex];
        var complete := downloadedBytes >= progress.size;
        fileProgress := fileProgress[fileIndex := Progress(downloadedBytes, progress.size, complete)];
      }
    }

    method DownloadedBytes(file: FileInfo, completedPieces: set<nat>) returns (downloadedBytes: nat)
      requires totalLength <= numPieces * pieceLength
      ensures downloadedBytes == Downloaded(file, totalLength, pieceLength, completedPieces, numPieces)
    {
      downloadedBytes := 0;
      var left := completedPieces;
      DownloadedNone(file, totalLength, pieceLength, numPieces);
      assert completedPieces - left == {};
      while left != {}
        invariant left <= completedPieces
        invariant downloadedBytes == Downloaded(file, totalLength, pieceLength, completedPieces - left, numPieces)
        decreases left
      {
        hide Downloaded;
        var pieceIndex :| pieceIndex in left;
        ghost var done := completedPieces - left;
        left := left - {pieceIndex};
        assert completedPieces - left == done + {pieceIndex};
        DownloadedAdd(file, totalLength, pieceLength, done, pieceIndex, numPieces);
        if pieceIndex >= numPieces {
          SharedBehindEnd(file, totalLength, pieceLength, numPieces, pieceIndex);
        }
        MulNat(pieceIndex, pieceLength);
        var pieceStart := pieceIndex * pieceLength;
        var pieceEnd := Min(pieceStart + pieceLength, totalLength);
        var overlapStart, overlapEnd := Max(pieceStart, file.offset), Min(pieceEnd, file.offset + file.length);
        if overlapEnd > overlapStart {
          downloadedBytes := downloadedBytes + (overlapEnd - overlapStart);
        }
      }
      assert completedPieces - left == completedPieces;
    }

    method ReadChunks(overlappingFiles: seq<Overlap>) returns (all: bytes)
      ensures all == ReadOverlaps(files, disk, overlappingFiles)
    {
      hide ReadOne;
      all := [];
      assert overlappingFiles[0..] == overlappingFiles;
      for k := 0 to |overlappingFiles|
        invariant all + ReadOverlaps(files, disk, overlappingFiles[k..]) == ReadOverlaps(files, disk, overlappingFiles)
      {
        assert overlappingFiles[k..][1..] == overlappingFiles[k + 1..];
        var buffer := ReadOne(files, disk, overlappingFiles[k]);
        all := all + buffer;
      }
    }
  }

  /** The bytes that piece `i` and a file have in common. */
  function Shared(file: FileInfo, total: nat, n: nat, i: nat): nat {
    MulNat(i, n);
    var pieceStart := i * n;
    var pieceEnd := Min(pieceStart + n, total);
    var overlapStart, overlapEnd := Max(pieceStart, file.offset), Min(pieceEnd, file.offset + file.length);
    if overlapEnd > overlapStart then overlapEnd - overlapStart else 0
  }

  /** The bytes a file shares with those of the first `k` pieces that are completed. */
  function Downloaded(file: FileInfo, total: nat, n: nat, completed: set<nat>, k: nat): nat {
    if k == 0 then 0
    else Downloaded(file, total, n, completed, k - 1) + if k - 1 in completed then Shared(file, total, n, k - 1) else 0
  }

  lemma {:induction false} DownloadedAdd(file: FileInfo, total: nat, n: nat, done: set<nat>, p: nat, k: nat)
    requires p !in done
    ensures Downloaded(file, total, n, done + {p}, k)
         == Downloaded(file, total, n, done, k) + if p < k then Shared(file, total, n, p) else 0
  {
    if k > 0 {
      DownloadedAdd(file, total, n, done, p, k - 1);
    }
  }

  lemma {:induction false} DownloadedNone(file: FileInfo, total: nat, n: nat, k: nat)
    ensures Downloaded(file, total, n, {}, k) == 0
  {
    if k > 0 {
      DownloadedNone(file, total, n, k - 1);
    }
  }

  /** A piece behind the end of the torrent shares nothing with any file. */
  lemma SharedBehindEnd(file: FileInfo, total: nat, n: nat, count: nat, i: nat)
    requires total <= count * n && count <= i
    ensures Shared(file, total, n, i) == 0
  {
    MulMono(count, i, n);
  }

  function PieceSet(first: int, last: int): (r: set<int>)
    ensures forall k :: k in r <==> first <= k <= last
    decreases last - first
  {
    if last < first then {} else PieceSet(first, last - 1) + {last}
  }

  function RangeOf(file: FileInfo, n: nat): PieceRange
    requires 0 < n
  {
    var first, last := file.offset / n, (file.offset + file.length - 1) / n;
    PieceRange(first, last, PieceSet(first, last))
  }
}
