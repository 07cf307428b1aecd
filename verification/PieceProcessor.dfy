/** The streaming piece slicer: a buffer of two piece lengths, filled from chunks and shifted in place. */
module PieceProcessor {
  import opened Bytes
  import opened Pieces

  datatype Emitted = Emitted(pieceData: bytes, index: nat)

  /** Pieces handed out with consecutive indices from `first`. */
  function Numbered(ps: seq<bytes>, first: nat): (r: seq<Emitted>)
    ensures |r| == |ps|
  {
    seq(|ps|, i requires 0 <= i < |ps| => Emitted(ps[i], first + i))
  }

  /** One more full piece of what was received. */
  lemma NextSlice(received: bytes, n: nat, full: nat, first: nat)
    requires 0 < n && 0 <= full * n && full * n + n <= |received|
    ensures var done, slice := full * n, Emitted(received[full * n..][..n], first + |Cut(received[..full * n], n)|);
            Numbered(Cut(received[..done + n], n), first) == Numbered(Cut(received[..done], n), first) + [slice]
  {
    hide Cut;
    var done := full * n;
    var piece := received[done..][..n];
    assert received[..done + n] == received[..done] + piece;
    CutAppend(received[..done], piece, n, full);
    CutOne(piece, n);
  }

  class PieceProcessor {
    const pieceLength: nat
    const initialPieceIndex: nat
    var pieceIndex: nat
    const buf: array<byte>
    var bufLen: nat
    // the calls made to onPieceReady, and everything received so far
    var emitted: seq<Emitted>
    ghost var received: bytes
    ghost var full: nat

    ghost predicate Valid()
      reads this, buf
    {
      && 0 < pieceLength && buf.Length == 2 * pieceLength && bufLen <= buf.Length
      && 0 <= full * pieceLength <= |received| && pieceIndex == initialPieceIndex + full
      && buf[..bufLen] == received[full * pieceLength..]
      && emitted == Numbered(Cut(received[..full * pieceLength], pieceLength), initialPieceIndex)
      && |emitted| == full
    }

    constructor (pieceLength: nat, initialPieceIndex: nat)
      requires 0 < pieceLength
      ensures Valid() && bufLen == 0 && received == [] && fresh(buf)
      ensures this.pieceLength == pieceLength && this.initialPieceIndex == initialPieceIndex
    {
      this.pieceLength := pieceLength;
      this.initialPieceIndex := initialPieceIndex;
      pieceIndex := initialPieceIndex;
      buf := new byte[2 * pieceLength](_ => 0);
      bufLen := 0;
      emitted := [];
      received := [];
      full := 0;
    }

    /** Takes one whole piece off the front of the buffer and shifts the rest down. */
    method EmitPiece()
      requires Valid() && bufLen >= pieceLength
      modifies this`bufLen, this`pieceIndex, this`emitted, this`full, buf
      ensures Valid() && bufLen == old(bufLen) - pieceLength
    {
      hide Cut, Numbered;
      var pieceData := buf[..pieceLength];
      ShiftDown();
      bufLen := bufLen - pieceLength;
      emitted := emitted + [Emitted(pieceData, pieceIndex)];
      pieceIndex := pieceIndex + 1;
      ghost var done := full * pieceLength;
      full := full + 1;
      assert full * pieceLength == done + pieceLength;
      assert pieceData == received[done..][..pieceLength];
      NextSlice(received, pieceLength, full - 1, initialPieceIndex);
      assert buf[..bufLen] == old(buf[..bufLen])[pieceLength..] == received[done..][pieceLength..];
    }

    method ShiftDown()
      requires pieceLength <= bufLen <= buf.Length
      modifies buf
      ensures buf[..bufLen - pieceLength] == old(buf[..bufLen])[pieceLength..]
    {
      ghost var before := buf[..];
      for i := 0 to bufLen - pieceLength
        invariant forall j :: 0 <= j < i ==> buf[j] == before[pieceLength + j]
        invariant forall j :: i <= j < buf.Length ==> buf[j] == before[j]
      {
        buf[i] := buf[pieceLength + i];
      }
    }

    /** _transform: whatever the chunk, the buffer never overflows and less than a piece stays behind. */
    method Transform(chunk: bytes)
      requires Valid() && bufLen < pieceLength
      modifies this`bufLen, this`pieceIndex, this`emitted, this`full, this`received, buf
      ensures Valid() && bufLen < pieceLength
      ensures received == old(received) + chunk
    {
      var chunkOffset := 0;
      while chunkOffset < |chunk|
        invariant 0 <= chunkOffset <= |chunk| && Valid() && bufLen < pieceLength
        invariant received == old(received) + chunk[..chunkOffset]
      {
        var spaceLeft := buf.Length - bufLen;
        var bytesToCopy := Min(|chunk| - chunkOffset, spaceLeft);
        CopyIn(chunk[chunkOffset..chunkOffset + bytesToCopy]);
        assert chunk[..chunkOffset + bytesToCopy]
            == chunk[..chunkOffset] + chunk[chunkOffset..chunkOffset + bytesToCopy];
        chunkOffset := chunkOffset + bytesToCopy;
        while bufLen >= pieceLength
          invariant Valid() && received == old(received) + chunk[..chunkOffset]
          decreases bufLen
        {
          EmitPiece();
        }
      }
      assert chunk[..|chunk|] == chunk;
    }

    method CopyIn(part: bytes)
      requires Valid() && bufLen + |part| <= buf.Length
      modifies this`bufLen, this`received, buf
      ensures Valid() && bufLen == old(bufLen) + |part| && received == old(received) + part
    {
      ghost var before := buf[..];
      for i := 0 to |part|
        modifies buf
        invariant forall j :: 0 <= j < bufLen ==> buf[j] == before[j]
        invariant forall j :: 0 <= j < i ==> buf[bufLen + j] == part[j]
      {
        buf[bufLen + i] := part[i];
      }
      bufLen := bufLen + |part|;
      ghost var done := full * pieceLength;
      assert (received + part)[done..] == received[done..] + part;
      assert (received + part)[..done] == received[..done];
      assert buf[..bufLen] == before[..bufLen - |part|] + part;
      received := received + part;
    }

    /** _flush: the last, possibly shorter, piece. */
    method Flush()
      requires Valid() && bufLen < pieceLength
      modifies this`pieceIndex, this`emitted
      ensures emitted == Numbered(Cut(received, pieceLength), initialPieceIndex)
    {
      ghost var done := full * pieceLength;
      assert received == received[..done] + received[done..];
      CutAppend(received[..done], received[done..], pieceLength, full);
      if bufLen > 0 {
        var pieceData := buf[..bufLen];
        emitted := emitted + [Emitted(pieceData, pieceIndex)];
        pieceIndex := pieceIndex + 1;
      } else {
        assert received[done..] == [];
      }
    }
  }

  function Parts(out: seq<Emitted>): (r: seq<bytes>)
    ensures |r| == |out|
    ensures forall i :: 0 <= i < |out| ==> r[i] == out[i].pieceData
  {
    seq(|out|, i requires 0 <= i < |out| => out[i].pieceData)
  }

  /** The slices are full but for the last one, none is empty, and together they are the content. */
  lemma SlicesOfContent(data: bytes, pieceLength: nat, first: nat)
    requires 0 < pieceLength
    ensures var out := Numbered(Cut(data, pieceLength), first);
            && Flatten(Parts(out)) == data
            && (forall i :: 0 <= i < |out| ==> out[i].index == first + i && 0 < |out[i].pieceData| <= pieceLength)
            && (forall i :: 0 <= i < |out| - 1 ==> |out[i].pieceData| == pieceLength)
  {
    hide Cut;
    var ps := Cut(data, pieceLength);
    FlattenCut(data, pieceLength);
    assert Parts(Numbered(ps, first)) == ps;
    forall i | 0 <= i < |ps| ensures 0 < |ps[i]| <= pieceLength && (i < |ps| - 1 ==> |ps[i]| == pieceLength) {
      CutAt(data, pieceLength, i);
      if i < |ps| - 1 {
        CutAt(data, pieceLength, i + 1);
        assert (i + 1) * pieceLength == i * pieceLength + pieceLength;
      }
    }
  }

  /**
   A whole stream, however it is cut into chunks, yields the pieces of its content: numbered from the first index, full
   but for the last, and together the content again.
   */
  method ProcessStream(chunks: seq<bytes>, pieceLength: nat, initialPieceIndex: nat) returns (out: seq<Emitted>)
    requires 0 < pieceLength
    ensures out == Numbered(Cut(Flatten(chunks), pieceLength), initialPieceIndex)
    ensures Flatten(Parts(out)) == Flatten(chunks)
    ensures forall i :: 0 <= i < |out| ==>
              out[i].index == initialPieceIndex + i && 0 < |out[i].pieceData| <= pieceLength
    ensures forall i :: 0 <= i < |out| - 1 ==> |out[i].pieceData| == pieceLength
  {
    hide Cut;
    var p := new PieceProcessor(pieceLength, initialPieceIndex);
    for i := 0 to |chunks|
      invariant p.Valid() && p.bufLen < pieceLength && fresh(p) && fresh(p.buf)
      invariant p.pieceLength == pieceLength && p.initialPieceIndex == initialPieceIndex
      invariant p.received == Flatten(chunks[..i])
    {
      p.Transform(chunks[i]);
      assert chunks[..i + 1] == chunks[..i] + [chunks[i]];
      FlattenSnoc(chunks[..i], chunks[i]);
    }
    assert chunks[..|chunks|] == chunks;
    p.Flush();
    out := p.emitted;
    SlicesOfContent(Flatten(chunks), pieceLength, initialPieceIndex);
  }
}
