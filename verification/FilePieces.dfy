/** What the mapping of pieces onto files promises: round trips, non-interference and conservation of bytes. */
module FilePieces {
  import opened Arith
  import opened Bytes
  import opened Pieces
  import opened FileWriter

  /** The disk after piece `i` was written with `data`. */
  ghost function AfterWrite(files: seq<FileInfo>, disk: Disk, n: nat, i: nat, data: bytes): Disk {
    MulNat(i, n);
    WriteOverlaps(files, disk, Overlapping(files, i * n, i * n + |data|, 0), data, 0)
  }

  /** What reading piece `i` returns. */
  ghost function PieceOnDisk(files: seq<FileInfo>, disk: Disk, n: nat, count: nat, i: nat): bytes
    requires 0 <= PieceLength(TotalLength(files), n, count, i)
  {
    MulNat(i, n);
    var length := PieceLength(TotalLength(files), n, count, i);
    Resize(ReadOverlaps(files, disk, Overlapping(files, i * n, i * n + length, 0)), length)
  }

  /** A torrent whose files are all on disk. */
  ghost predicate Ready(files: seq<FileInfo>, disk: Disk, n: nat, count: nat) {
    Laid(files) && DistinctPaths(files) && Allocated(files, disk) && Geometry(TotalLength(files), n, count)
  }

  lemma PieceOnDiskIs(files: seq<FileInfo>, disk: Disk, n: nat, count: nat, i: nat)
    requires Ready(files, disk, n, count) && i < count
    ensures var length := PieceLength(TotalLength(files), n, count, i);
            0 <= length && 0 <= i * n && i * n + length <= |Content(files, disk)|
            && PieceOnDisk(files, disk, n, count, i) == Content(files, disk)[i * n..i * n + length]
  {
    hide Content, Overlapping, ReadOverlaps, PieceLength;
    PieceInside(TotalLength(files), n, count, i);
    var length := PieceLength(TotalLength(files), n, count, i);
    assert DataOffset(files, 0, i * n, i * n + length) == 0;
    ReadContent(files, disk, i * n, i * n + length, 0);
  }

  /** Different pieces cover different bytes. */
  lemma PiecesDisjoint(total: nat, n: nat, count: nat, i: nat, k: nat)
    requires Geometry(total, n, count) && i < k < count
    ensures i * n + PieceLength(total, n, count, i) <= k * n
  {
    MulGap(i, k, n);
  }

  /** Reading a written piece returns the data, and no other piece changes. */
  lemma ReadAfterWrite(files: seq<FileInfo>, disk: Disk, n: nat, count: nat, i: nat, data: bytes, k: nat)
    requires Ready(files, disk, n, count) && i < count && k < count
    requires |data| == PieceLength(TotalLength(files), n, count, i)
    ensures var now := AfterWrite(files, disk, n, i, data);
            && Ready(files, now, n, count)
            && 0 <= PieceLength(TotalLength(files), n, count, k)
            && PieceOnDisk(files, now, n, count, k) == if k == i then data else PieceOnDisk(files, disk, n, count, k)
  {
    hide Content, PieceOnDisk, WriteOverlaps, Overlapping;
    var now := AfterWrite(files, disk, n, i, data);
    MulNat(i, n);
    WriteContent(files, disk, i * n, data);
    PieceOnDiskIs(files, now, n, count, k);
    PieceOnDiskIs(files, disk, n, count, k);
    if k < i {
      PiecesDisjoint(TotalLength(files), n, count, k, i);
    } else if i < k {
      PiecesDisjoint(TotalLength(files), n, count, i, k);
    }
    var length := PieceLength(TotalLength(files), n, count, k);
    var new_, old_ := Content(files, now), Content(files, disk);
    assert new_[k * n..k * n + length] == if k == i then data else old_[k * n..k * n + length];
  }

  // ---------------------------------------------------------------- a whole download

  /** The pieces of `content` written in the given order, repetitions allowed. */
  ghost function AfterWrites(files: seq<FileInfo>, disk: Disk, n: nat, count: nat, content: bytes,
                             order: seq<nat>): Disk {
    if order == [] then disk
    else
      var i := order[|order| - 1];
      AfterWrite(files, AfterWrites(files, disk, n, count, content, order[..|order| - 1]), n, i, PieceOf(content, n, i))
  }

  function PieceOf(content: bytes, n: nat, i: nat): bytes {
    MulNat(i, n);
    Slice(content, i * n, Min(i * n + n, |content|))
  }

  lemma PieceOfLength(content: bytes, n: nat, count: nat, i: nat)
    requires Geometry(|content|, n, count) && i < count
    ensures |PieceOf(content, n, i)| == PieceLength(|content|, n, count, i)
    ensures 0 <= i * n
    ensures forall p :: i * n <= p < i * n + |PieceOf(content, n, i)| ==>
              p < |content| && PieceOf(content, n, i)[p - i * n] == content[p]
  {
    PieceInside(|content|, n, count, i);
    assert (i + 1) * n == i * n + n;
  }

  /** After any writes, every byte of a written piece is the content's, every other byte is as before. */
  lemma {:induction false} WritesContent(files: seq<FileInfo>, disk: Disk, n: nat, count: nat, content: bytes,
                                         order: seq<nat>)
    requires Ready(files, disk, n, count) && |content| == TotalLength(files)
    requires forall k :: 0 <= k < |order| ==> order[k] < count
    ensures var now := AfterWrites(files, disk, n, count, content, order);
            Ready(files, now, n, count) && |Content(files, now)| == |Content(files, disk)| == |content|
            && forall p :: 0 <= p < |content| ==>
                 Content(files, now)[p] == if p / n in order then content[p] else Content(files, disk)[p]
  {
    hide Content, WriteOverlaps, Overlapping, PieceOf;
    ContentLength(files, disk);
    if order != [] {
      var front, i := order[..|order| - 1], order[|order| - 1];
      WritesContent(files, disk, n, count, content, front);
      var before := AfterWrites(files, disk, n, count, content, front);
      var now := AfterWrite(files, before, n, i, PieceOf(content, n, i));
      PieceOfLength(content, n, count, i);
      WriteContent(files, before, i * n, PieceOf(content, n, i));
      forall p | 0 <= p < |content|
        ensures Content(files, now)[p] == if p / n in order then content[p] else Content(files, disk)[p]
      {
        PieceOfByte(|content|, n, count, i, p);
        assert p / n in order <==> p / n in front || p / n == i;
      }
    }
  }

  /** Byte `p` lies in piece `p / n` and in no other. */
  lemma PieceOfByte(total: nat, n: nat, count: nat, i: nat, p: nat)
    requires Geometry(total, n, count) && i < count && p < total
    ensures p / n == i <==> i * n <= p < i * n + PieceLength(total, n, count, i)
  {
    PieceInside(total, n, count, i);
    DivBounds(p, n);
    if i * n <= p < i * n + n {
      DivIs(p, n, i);
    }
  }

  lemma PieceIndexInRange(total: nat, n: nat, count: nat, p: nat)
    requires Geometry(total, n, count) && p < total
    ensures 0 <= p / n < count
  {
    DivBounds(p, n);
    if p / n >= count {
      MulMono(count, p / n, n);
    }
  }

  /** Writing all pieces in any order makes the files, one after the other, the torrent's content. */
  lemma AllPiecesWritten(files: seq<FileInfo>, disk: Disk, n: nat, count: nat, content: bytes, order: seq<nat>)
    requires Ready(files, disk, n, count) && |content| == TotalLength(files)
    requires forall k :: 0 <= k < |order| ==> order[k] < count
    requires forall i :: 0 <= i < count ==> i in order
    ensures var now := AfterWrites(files, disk, n, count, content, order);
            Allocated(files, now) && Content(files, now) == content
  {
    hide Content, AfterWrites;
    WritesContent(files, disk, n, count, content, order);
    var now := AfterWrites(files, disk, n, count, content, order);
    forall p | 0 <= p < |content| ensures Content(files, now)[p] == content[p] {
      PieceIndexInRange(|content|, n, count, p);
    }
  }

  /** Every file holds its part of the content. */
  ghost predicate FilesHold(files: seq<FileInfo>, disk: Disk, content: bytes) {
    forall i :: 0 <= i < |files| ==>
      && files[i].offset + files[i].length <= |content| && files[i].path in disk
      && disk[files[i].path] == content[files[i].offset..files[i].offset + files[i].length]
  }

  function Upto(count: nat): (r: seq<nat>)
    ensures |r| == count && forall i :: 0 <= i < count ==> r[i] == i
    ensures forall i :: 0 <= i < count ==> i in r
  {
    if count == 0 then [] else Upto(count - 1) + [count - 1]
  }

  /** A disk with nothing on it but its root. */
  const EMPTY_TREE: Tree := Tree(map[], {[]})

  /**
   A download onto an empty disk stores every content exactly when no two listed files have the same place, unless both
   are empty, none lies below another one, none is the base directory or above it, and none ends in '/'.
   */
  lemma StoredIffPlacesFit(base: Path, files: seq<FileInfo>, n: nat, count: nat)
    requires Laid(files) && Geometry(TotalLength(files), n, count)
    ensures DistinctPaths(files) && PlacesFit(base, files) <==>
            var (t, ok) := InitAll(base, files, EMPTY_TREE);
            && ok
            && forall content: bytes :: |content| == TotalLength(files) ==>
                 FilesHold(files, AfterWrites(files, t.files, n, count, content, Upto(count)), content)
  {
    hide InitAll, AfterWrites, FilesHold, PlacesFit;
    InitSucceedsIff(base, files, EMPTY_TREE);
    FreeOnEmpty(base, files);
    if DistinctPaths(files) && PlacesFit(base, files) {
      var disk := InitAll(base, files, EMPTY_TREE).0.files;
      forall content: bytes | |content| == TotalLength(files)
        ensures FilesHold(files, AfterWrites(files, disk, n, count, content, Upto(count)), content)
      {
        StoresContent(base, files, n, count, content);
      }
    } else if !DistinctPaths(files) {
      var content := Unstorable(files);
    }
  }

  lemma FreeOnEmpty(base: Path, files: seq<FileInfo>)
    ensures PlacesFit(base, files) ==> NoneInTheWay(EMPTY_TREE, files)
    ensures !FileOnTheWay(EMPTY_TREE.files, base)
  {
    assert [] <= base;
  }

  lemma StoresContent(base: Path, files: seq<FileInfo>, n: nat, count: nat, content: bytes)
    requires Laid(files) && Geometry(TotalLength(files), n, count) && DistinctPaths(files)
    requires InitAll(base, files, EMPTY_TREE).1 && |content| == TotalLength(files)
    ensures var disk := InitAll(base, files, EMPTY_TREE).0.files;
            FilesHold(files, AfterWrites(files, disk, n, count, content, Upto(count)), content)
  {
    hide Content, AfterWrites, InitAll, PieceLength, DistinctPaths;
    InitAllocates(base, files, EMPTY_TREE);
    var order := Upto(count);
    var disk := InitAll(base, files, EMPTY_TREE).0.files;
    AllPiecesWritten(files, disk, n, count, content, order);
    HoldsContent(files, AfterWrites(files, disk, n, count, content, order), content);
  }

  lemma HoldsContent(files: seq<FileInfo>, disk: Disk, content: bytes)
    requires Laid(files) && Allocated(files, disk) && Content(files, disk) == content
    ensures FilesHold(files, disk, content)
  {
    hide Content;
    ContentLength(files, disk);
    forall i | 0 <= i < |files|
      ensures files[i].offset + files[i].length <= |content|
      ensures disk[files[i].path] == content[files[i].offset..files[i].offset + files[i].length]
    {
      OffsetsBelowTotal(files, i);
      forall j | 0 <= j < files[i].length ensures disk[files[i].path][j] == content[files[i].offset + j] {
        ContentAt(files, disk, i, j);
      }
    }
  }

  /** With a place used twice there is content that no disk can hold. */
  lemma Unstorable(files: seq<FileInfo>) returns (content: bytes)
    requires Laid(files) && !DistinctPaths(files)
    ensures |content| == TotalLength(files) && forall disk :: !FilesHold(files, disk, content)
  {
    var i, j :| 0 <= i < j < |files| && files[i].path == files[j].path && !(files[i].length == files[j].length == 0);
    OffsetsOrdered(files, i, j);
    OffsetsBelowTotal(files, j);
    hide Laid, DistinctPaths;
    content := TwoParts(TotalLength(files), files[i].offset, files[i].length, files[j].offset, files[j].length);
    forall disk ensures !FilesHold(files, disk, content) {
    }
  }

  /** Content that differs in two disjoint ranges which are not both empty. */
  lemma TwoParts(total: nat, a: nat, m: nat, b: nat, n: nat) returns (content: bytes)
    requires a + m <= b && b + n <= total && !(m == n == 0)
    ensures |content| == total && content[a..a + m] != content[b..b + n]
  {
    content := ZeroBytes(total);
    if m == n {
      content := content[b := 1];
      assert content[a..a + m][0] == 0 && content[b..b + n][0] == 1;
    }
  }

  // ---------------------------------------------------------------- progress

  function Boundary(total: nat, n: nat, i: nat): nat {
    MulNat(i, n);
    Min(i * n, total)
  }

  /** A piece and a file share the part of the file between two piece boundaries. */
  lemma SharedIs(file: FileInfo, total: nat, n: nat, i: nat)
    requires file.offset + file.length <= total
    ensures Shared(file, total, n, i) == Clamp(Boundary(total, n, i + 1), file.offset, file.offset + file.length)
                                       - Clamp(Boundary(total, n, i), file.offset, file.offset + file.length)
    ensures Shared(file, total, n, i)
         == Clamp(file.offset + file.length, Boundary(total, n, i), Boundary(total, n, i + 1))
            - Clamp(file.offset, Boundary(total, n, i), Boundary(total, n, i + 1))
  {
    MulNat(i, n);
    assert (i + 1) * n == i * n + n;
  }

  function SumDownloaded(files: seq<FileInfo>, total: nat, n: nat, completed: set<nat>, k: nat): nat {
    if files == [] then 0
    else
      SumDownloaded(files[..|files| - 1], total, n, completed, k)
      + Downloaded(files[|files| - 1], total, n, completed, k)
  }

  function SumShared(files: seq<FileInfo>, total: nat, n: nat, i: nat): nat {
    if files == [] then 0 else SumShared(files[..|files| - 1], total, n, i) + Shared(files[|files| - 1], total, n, i)
  }

  function BytesBetween(total: nat, n: nat, completed: set<nat>, k: nat): int {
    if k == 0 then 0
    else BytesBetween(total, n, completed, k - 1)
         + if k - 1 in completed then Boundary(total, n, k) - Boundary(total, n, k - 1) else 0
  }

  lemma {:induction false} SumDownloadedStep(files: seq<FileInfo>, total: nat, n: nat, completed: set<nat>, k: nat)
    ensures SumDownloaded(files, total, n, completed, k + 1)
         == SumDownloaded(files, total, n, completed, k) + if k in completed then SumShared(files, total, n, k) else 0
  {
    hide Shared;
    if files != [] {
      SumDownloadedStep(files[..|files| - 1], total, n, completed, k);
    }
  }

  lemma {:induction false} SumDownloadedZero(files: seq<FileInfo>, total: nat, n: nat, completed: set<nat>)
    ensures SumDownloaded(files, total, n, completed, 0) == 0
  {
    if files != [] {
      SumDownloadedZero(files[..|files| - 1], total, n, completed);
    }
  }

  /** The files together share all bytes of a piece that lie before their end. */
  lemma {:induction false} SumSharedIs(files: seq<FileInfo>, total: nat, n: nat, i: nat)
    requires Laid(files) && TotalLength(files) <= total
    ensures SumShared(files, total, n, i)
         == Clamp(TotalLength(files), Boundary(total, n, i), Boundary(total, n, i + 1)) - Boundary(total, n, i)
  {
    hide Shared;
    assert (i + 1) * n == i * n + n;
    if files != [] {
      SumSharedIs(files[..|files| - 1], total, n, i);
      SharedIs(files[|files| - 1], total, n, i);
    }
  }

  /** The bytes of the completed ones among the first `k` pieces, between their boundaries. */
  lemma {:induction false} ProgressBetweenBoundaries(files: seq<FileInfo>, n: nat, completed: set<nat>, k: nat)
    requires Laid(files)
    ensures SumDownloaded(files, TotalLength(files), n, completed, k)
         == BytesBetween(TotalLength(files), n, completed, k)
  {
    var total := TotalLength(files);
    if k == 0 {
      SumDownloadedZero(files, total, n, completed);
    } else {
      ProgressBetweenBoundaries(files, n, completed, k - 1);
      SumDownloadedStep(files, total, n, completed, k - 1);
      SumSharedIs(files, total, n, k - 1);
      assert k * n == (k - 1) * n + n;
    }
  }

  /** A piece below the count is as long as the torrent's geometry says. */
  lemma BoundaryGap(total: nat, n: nat, count: nat, i: nat)
    requires Geometry(total, n, count) && i < count
    ensures Boundary(total, n, i + 1) - Boundary(total, n, i) == PieceLength(total, n, count, i)
  {
    PieceInside(total, n, count, i);
  }

  /** The lengths of the completed ones among the first `k` pieces. */
  function CompletedBytes(total: nat, n: nat, count: nat, completed: set<nat>, k: nat): int {
    if k == 0 then 0
    else
      CompletedBytes(total, n, count, completed, k - 1)
      + if k - 1 in completed then PieceLength(total, n, count, k - 1) else 0
  }

  lemma {:induction false} BytesAreLengths(total: nat, n: nat, count: nat, completed: set<nat>, k: nat)
    requires Geometry(total, n, count) && k <= count
    ensures BytesBetween(total, n, completed, k) == CompletedBytes(total, n, count, completed, k)
  {
    hide Boundary, PieceLength;
    if k > 0 {
      BytesAreLengths(total, n, count, completed, k - 1);
      BoundaryGap(total, n, count, k - 1);
    }
  }

  /**
   Conservation: for any set of completed pieces, the files' downloaded bytes add up to the lengths of these pieces.
   */
  lemma ProgressConserved(files: seq<FileInfo>, n: nat, count: nat, completed: set<nat>)
    requires Laid(files) && Geometry(TotalLength(files), n, count)
    ensures SumDownloaded(files, TotalLength(files), n, completed, count)
         == CompletedBytes(TotalLength(files), n, count, completed, count)
  {
    ProgressBetweenBoundaries(files, n, completed, count);
    BytesAreLengths(TotalLength(files), n, count, completed, count);
  }

  /** What a file still lacks is what it shares with the missing pieces. */
  function Missing(file: FileInfo, total: nat, n: nat, completed: set<nat>, k: nat): nat {
    if k == 0 then 0
    else Missing(file, total, n, completed, k - 1) + if k - 1 in completed then 0 else Shared(file, total, n, k - 1)
  }

  lemma {:induction false} DownloadedAndMissing(file: FileInfo, total: nat, n: nat, completed: set<nat>, k: nat)
    requires file.offset + file.length <= total
    ensures Downloaded(file, total, n, completed, k) + Missing(file, total, n, completed, k)
         == Clamp(Boundary(total, n, k), file.offset, file.offset + file.length) - file.offset
  {
    hide Shared;
    if k > 0 {
      DownloadedAndMissing(file, total, n, completed, k - 1);
      SharedIs(file, total, n, k - 1);
    } else {
      assert 0 * n == 0;
    }
  }

  lemma {:induction false} NothingMissing(file: FileInfo, total: nat, n: nat, completed: set<nat>, k: nat)
    ensures Missing(file, total, n, completed, k) == 0
       <==> forall i :: 0 <= i < k && i !in completed ==> Shared(file, total, n, i) == 0
  {
    hide Shared;
    if k > 0 {
      NothingMissing(file, total, n, completed, k - 1);
    }
  }

  /** A non-empty file shares bytes with exactly the pieces of its range. */
  lemma SharesRange(file: FileInfo, total: nat, n: nat, count: nat, i: nat)
    requires Geometry(total, n, count) && file.offset + file.length <= total && 0 < file.length
    ensures Shared(file, total, n, i) > 0 <==> i in RangeOf(file, n).pieces
    ensures i in RangeOf(file, n).pieces ==> i < count
  {
    var s, e := file.offset, file.offset + file.length;
    MulNat(i, n);
    DivBounds(s, n);
    DivBounds(e - 1, n);
    var first, last := s / n, (e - 1) / n;
    if i < first { MulGap(i, first, n); }
    if i > last { MulGap(last, i, n); }
    if first <= i { MulMono(first, i, n); if first < i { MulGap(first, i, n); } }
    if i <= last { MulMono(i, last, n); if i < last { MulGap(i, last, n); } }
    if i >= count { MulMono(count, i, n); }
  }

  /** A non-empty file is complete exactly when every piece of its range is. */
  lemma CompleteIff(file: FileInfo, total: nat, n: nat, count: nat, completed: set<nat>)
    requires Geometry(total, n, count) && file.offset + file.length <= total && 0 < file.length
    ensures Downloaded(file, total, n, completed, count) <= file.length
    ensures Downloaded(file, total, n, completed, count) >= file.length
       <==> forall i: nat :: i in RangeOf(file, n).pieces ==> i in completed
  {
    hide Shared, RangeOf, Downloaded;
    DownloadedAndMissing(file, total, n, completed, count);
    NothingMissing(file, total, n, completed, count);
    forall i: nat ensures Shared(file, total, n, i) > 0 <==> i in RangeOf(file, n).pieces
                  ensures i in RangeOf(file, n).pieces ==> i < count {
      SharesRange(file, total, n, count, i);
    }
    assert Boundary(total, n, count) == total;
  }

  // ---------------------------------------------------------------- progress counted while writing

  /** Writing a range credits each file with what it shares with the range. */
  lemma {:induction false} CreditOverlaps(files: seq<FileInfo>, progress: seq<Progress>, start: nat, end: nat, i: nat,
                                          f: nat)
    requires i <= |files| && f < |files| == |progress| && start <= end
    ensures Credit(progress, Overlapping(files, start, end, i))[f].downloaded == progress[f].downloaded +
              if i <= f then Max(0, Min(end, files[f].offset + files[f].length) - Max(start, files[f].offset)) else 0
    decreases |files| - i
  {
    if i < |files| {
      var os := Overlapping(files, start, end, i + 1);
      if start < files[i].offset + files[i].length && end > files[i].offset {
        var o := OverlapOf(files, start, end, i);
        assert ([o] + os)[1..] == os;
        CreditOverlaps(files, progress[i := CreditOne(progress[i], o.length)], start, end, i + 1, f);
      } else {
        CreditOverlaps(files, progress, start, end, i + 1, f);
      }
    }
  }

  ghost function CreditPiece(files: seq<FileInfo>, progress: seq<Progress>, n: nat, count: nat,
                             i: nat): (r: seq<Progress>)
    ensures |r| == |progress|
  {
    MulNat(i, n);
    var length := Max(0, PieceLength(TotalLength(files), n, count, i));
    Credit(progress, Overlapping(files, i * n, i * n + length, 0))
  }

  lemma CreditPieceIs(files: seq<FileInfo>, progress: seq<Progress>, n: nat, count: nat, i: nat, f: nat)
    requires Geometry(TotalLength(files), n, count) && f < |files| == |progress| && i < count
    ensures CreditPiece(files, progress, n, count, i)[f].downloaded
         == progress[f].downloaded + Shared(files[f], TotalLength(files), n, i)
  {
    hide Credit, Overlapping, PieceLength;
    PieceInside(TotalLength(files), n, count, i);
    assert (i + 1) * n == i * n + n;
    var length := PieceLength(TotalLength(files), n, count, i);
    CreditOverlaps(files, progress, i * n, i * n + length, 0, f);
  }

  /** The progress after writing pieces in the given order. */
  ghost function Credited(files: seq<FileInfo>, progress: seq<Progress>, n: nat, count: nat,
                          order: seq<nat>): (r: seq<Progress>)
    ensures |r| == |progress|
  {
    if order == [] then progress
    else CreditPiece(files, Credited(files, progress, n, count, order[..|order| - 1]), n, count, order[|order| - 1])
  }

  function SumOrder(file: FileInfo, total: nat, n: nat, order: seq<nat>): nat {
    if order == [] then 0
    else SumOrder(file, total, n, order[..|order| - 1]) + Shared(file, total, n, order[|order| - 1])
  }

  lemma {:induction false} CreditedIs(files: seq<FileInfo>, progress: seq<Progress>, n: nat, count: nat,
                                      order: seq<nat>, f: nat)
    requires Geometry(TotalLength(files), n, count) && f < |files| == |progress|
    requires forall k :: 0 <= k < |order| ==> order[k] < count
    ensures Credited(files, progress, n, count, order)[f].downloaded
         == progress[f].downloaded + SumOrder(files[f], TotalLength(files), n, order)
  {
    hide Shared, CreditPiece, TotalLength, Geometry;
    if order != [] {
      var front, i := order[..|order| - 1], order[|order| - 1];
      CreditedIs(files, progress, n, count, front, f);
      CreditPieceIs(files, Credited(files, progress, n, count, front), n, count, i, f);
    }
  }

  function Elements(order: seq<nat>): (r: set<nat>)
    ensures forall i :: i in r <==> i in order
  {
    set i | i in order
  }

  /** No piece that shares bytes with the file is written a second time. */
  predicate NoneRepeated(file: FileInfo, total: nat, n: nat, order: seq<nat>) {
    forall k :: 0 <= k < |order| && order[k] in order[..k] ==> Shared(file, total, n, order[k]) == 0
  }

  lemma {:induction false} OrderVersusSet(file: FileInfo, total: nat, n: nat, count: nat, order: seq<nat>)
    requires forall k :: 0 <= k < |order| ==> order[k] < count
    ensures SumOrder(file, total, n, order) >= Downloaded(file, total, n, Elements(order), count)
    ensures SumOrder(file, total, n, order) == Downloaded(file, total, n, Elements(order), count)
       <==> NoneRepeated(file, total, n, order)
  {
    hide Shared, Downloaded;
    if order == [] {
      assert Elements(order) == {};
      DownloadedNone(file, total, n, count);
    } else {
      var m := |order| - 1;
      var front, i := order[..m], order[m];
      OrderVersusSet(file, total, n, count, front);
      assert forall k :: 0 <= k < m ==> front[..k] == order[..k];
      if i in front {
        assert Elements(order) == Elements(front);
      } else {
        assert Elements(order) == Elements(front) + {i};
        DownloadedAdd(file, total, n, Elements(front), i, count);
      }
      assert NoneRepeated(file, total, n, order)
        <==> NoneRepeated(file, total, n, front) && (i in front ==> Shared(file, total, n, i) == 0) by {
        assert order[..m] == front;
      }
    }
  }

  /** Progress counted write by write is the recalculated progress exactly when no piece of the file was rewritten. */
  lemma IncrementalProgressIff(files: seq<FileInfo>, progress: seq<Progress>, n: nat, count: nat, order: seq<nat>,
                               f: nat)
    requires Geometry(TotalLength(files), n, count) && f < |files| == |progress| && progress[f].downloaded == 0
    requires forall k :: 0 <= k < |order| ==> order[k] < count
    ensures Credited(files, progress, n, count, order)[f].downloaded
         == Downloaded(files[f], TotalLength(files), n, Elements(order), count)
       <==> NoneRepeated(files[f], TotalLength(files), n, order)
  {
    CreditedIs(files, progress, n, count, order, f);
    OrderVersusSet(files[f], TotalLength(files), n, count, order);
  }

  /** A file that has bytes is complete exactly when all of them are counted. */
  predicate FlagRight(p: Progress) {
    p.size > 0 ==> (p.complete <==> p.downloaded >= p.size)
  }

  lemma {:induction false} CreditFlags(progress: seq<Progress>, os: seq<Overlap>)
    requires forall p <- progress :: FlagRight(p)
    ensures forall p <- Credit(progress, os) :: FlagRight(p)
    decreases |os|
  {
    if os != [] {
      if os[0].fileIndex < |progress| {
        var p := CreditOne(progress[os[0].fileIndex], os[0].length);
        assert FlagRight(p);
        CreditFlags(progress[os[0].fileIndex := p], os[1..]);
      } else {
        CreditFlags(progress, os[1..]);
      }
    }
  }

  /** Whatever pieces are written, in any order: the flag of every file that has bytes follows its count. */
  lemma {:induction false} FlagsFollow(files: seq<FileInfo>, progress: seq<Progress>, n: nat, count: nat,
                                       order: seq<nat>)
    requires forall p <- progress :: FlagRight(p)
    ensures forall p <- Credited(files, progress, n, count, order) :: FlagRight(p)
  {
    hide FlagRight, PieceLength, Overlapping;
    if order != [] {
      FlagsFollow(files, progress, n, count, order[..|order| - 1]);
      var before, i := Credited(files, progress, n, count, order[..|order| - 1]), order[|order| - 1];
      var length := Max(0, PieceLength(TotalLength(files), n, count, i));
      MulNat(i, n);
      CreditFlags(before, Overlapping(files, i * n, i * n + length, 0));
    }
  }
}
