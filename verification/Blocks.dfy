/**
 One piece of a torrent, downloaded block by block. `PieceState` is the value of a piece; the class `Piece` updates its
 fields in place and is proved against it. SHA-1 is a parameter.
 */
module Blocks {
  import opened Arith
  import opened Bytes
  import opened Pieces

  const BLOCK_SIZE: nat := 16384

  /** `data` is empty until the block is received. */
  datatype Block = Block(offset: nat, length: nat, data: bytes, received: bool)

  datatype PieceState = PieceState(index: nat, length: nat, hash: bytes, blockSize: nat, blocks: seq<Block>,
                                   isComplete: bool, isVerified: bool, data: Option<bytes>)

  datatype PieceError = InvalidOffset | LengthMismatch

  /** _initializeBlocks, from `offset` on. */
  function Tiles(offset: nat, length: nat, size: nat): seq<Block>
    requires 0 < size && offset <= length
    decreases length - offset
  {
    if offset == length then []
    else
      var n := Min(size, length - offset);
      [Block(offset, n, [], false)] + Tiles(offset + n, length, size)
  }

  function Fresh(index: nat, length: nat, hash: bytes, blockSize: nat): PieceState
    requires 0 < blockSize
  {
    PieceState(index, length, hash, blockSize, Tiles(0, length, blockSize), false, false, None)
  }

  function Blank(b: Block): Block {
    b.(data := [], received := false)
  }

  function BlankAll(bs: seq<Block>): (r: seq<Block>)
    ensures |r| == |bs|
    ensures forall i :: 0 <= i < |bs| ==> r[i] == Blank(bs[i])
  {
    if bs == [] then [] else BlankAll(bs[..|bs| - 1]) + [Blank(bs[|bs| - 1])]
  }

  /** The index of the first block that is not received, or the number of blocks. */
  function FirstMissing(bs: seq<Block>): (r: nat)
    ensures r <= |bs|
    ensures r < |bs| ==> !bs[r].received
    ensures forall i :: 0 <= i < r ==> bs[i].received
  {
    if bs == [] then 0 else if !bs[0].received then 0 else 1 + FirstMissing(bs[1..])
  }

  /** getNextMissingBlock */
  function NextMissing(p: PieceState): Option<(nat, nat)> {
    var k := FirstMissing(p.blocks);
    if k < |p.blocks| then Some((p.blocks[k].offset, p.blocks[k].length)) else None
  }

  predicate AllReceived(bs: seq<Block>) {
    forall i :: 0 <= i < |bs| ==> bs[i].received
  }

  /** The index of the first block at this offset, or the number of blocks. */
  function FindOffset(bs: seq<Block>, offset: int): (r: nat)
    ensures r <= |bs|
    ensures r < |bs| ==> bs[r].offset == offset
    ensures forall i :: 0 <= i < r ==> bs[i].offset != offset
  {
    if bs == [] then 0 else if bs[0].offset == offset then 0 else 1 + FindOffset(bs[1..], offset)
  }

  function Datas(bs: seq<Block>): seq<bytes> {
    if bs == [] then [] else [bs[0].data] + Datas(bs[1..])
  }

  function Assemble(bs: seq<Block>, length: nat): bytes {
    Resize(Flatten(Datas(bs)), length)
  }

  function Stored(bs: seq<Block>, k: nat, data: bytes): seq<Block>
    requires k < |bs|
  {
    bs[k := bs[k].(data := data, received := true)]
  }

  /** addBlock, on a piece and a block of it that is missing. */
  function WithBlock(p: PieceState, k: nat, data: bytes): PieceState
    requires k < |p.blocks|
  {
    var bs := Stored(p.blocks, k, data);
    var complete := AllReceived(bs);
    p.(blocks := bs, isComplete := complete, data := if complete then Some(Assemble(bs, p.length)) else p.data)
  }

  /** addBlock: the new piece, and whether it is complete or what went wrong. */
  function BlockAdded(p: PieceState, offset: int, data: bytes): (PieceState, Result<bool, PieceError>) {
    var k := FindOffset(p.blocks, offset);
    if k == |p.blocks| then (p, Err(InvalidOffset))
    else if p.blocks[k].received then (p, Ok(p.isComplete))
    else if |data| != p.blocks[k].length then (p, Err(LengthMismatch))
    else (WithBlock(p, k, data), Ok(WithBlock(p, k, data).isComplete))
  }

  /** verify, on a complete piece. */
  function Verified(p: PieceState, sha1: bytes -> bytes): PieceState {
    var data := if p.data.Some? then p.data.value else Assemble(p.blocks, p.length);
    p.(data := Some(data), isVerified := sha1(data) == p.hash)
  }

  function Cleared(p: PieceState): PieceState {
    p.(blocks := BlankAll(p.blocks), isComplete := false, isVerified := false, data := None)
  }

  /** cancelPeerRequests and handleRequestTimeout mark the block of a request as not received. */
  function Unmark(p: PieceState, offset: nat): PieceState
    requires 0 < p.blockSize
  {
    var k := offset / p.blockSize;
    if offset % p.blockSize == 0 && k < |p.blocks| then
      p.(blocks := p.blocks[k := p.blocks[k].(received := false)])
    else p
  }

  // ---------------------------------------------------------------- the shape of a piece

  predicate PieceOk(p: PieceState) {
    && 0 < p.blockSize && 0 < p.length
    && BlankAll(p.blocks) == Tiles(0, p.length, p.blockSize)
    && (forall i :: 0 <= i < |p.blocks| && p.blocks[i].received ==> |p.blocks[i].data| == p.blocks[i].length)
    && (p.isComplete <==> AllReceived(p.blocks))
    && p.data == (if p.isComplete then Some(Assemble(p.blocks, p.length)) else None)
    && (p.isVerified ==> p.isComplete)
  }

  /** The tiles follow each other from `offset` to `length` without a gap, and only the last one may be short. */
  lemma {:induction false} TilesFollow(offset: nat, length: nat, size: nat, k: nat)
    requires 0 < size && offset <= length && k < |Tiles(offset, length, size)|
    ensures var ts := Tiles(offset, length, size);
            && ts[k].offset == offset + k * size < length
            && ts[k].length == Min(size, length - ts[k].offset)
            && 0 < ts[k].length
            && (k + 1 == |ts| <==> ts[k].offset + ts[k].length == length)
            && !ts[k].received
    decreases length - offset
  {
    var n := Min(size, length - offset);
    var rest := Tiles(offset + n, length, size);
    assert Tiles(offset, length, size) == [Block(offset, n, [], false)] + rest;
    if k > 0 {
      TilesFollow(offset + n, length, size, k - 1);
      assert n == size;
      NextMultiple(k - 1, size);
    } else {
      assert 0 * size == 0;
    }
  }

  lemma NextMultiple(k: nat, size: nat)
    ensures (k + 1) * size == k * size + size
  {
  }

  lemma ShapeAt(p: PieceState, k: nat)
    requires PieceOk(p) && k < |p.blocks|
    ensures p.blocks[k].offset == k * p.blockSize < p.length
    ensures 0 < p.blocks[k].length == Min(p.blockSize, p.length - p.blocks[k].offset)
  {
    assert BlankAll(p.blocks)[k] == Blank(p.blocks[k]);
    TilesFollow(0, p.length, p.blockSize, k);
  }

  /** Blocks have different offsets, so looking a block up by its offset finds that block. */
  lemma FindsBlock(p: PieceState, k: nat)
    requires PieceOk(p) && k < |p.blocks|
    ensures FindOffset(p.blocks, p.blocks[k].offset) == k
  {
    var j := FindOffset(p.blocks, p.blocks[k].offset);
    ShapeAt(p, k);
    ShapeAt(p, j);
    if j < k { MulGap(j, k, p.blockSize); }
  }

  lemma FreshOk(index: nat, length: nat, hash: bytes, blockSize: nat)
    requires 0 < blockSize && 0 < length
    ensures PieceOk(Fresh(index, length, hash, blockSize))
    ensures !Fresh(index, length, hash, blockSize).isComplete
  {
    var p := Fresh(index, length, hash, blockSize);
    assert |p.blocks| > 0;
    TilesFollow(0, length, blockSize, 0);
    forall k | 0 <= k < |p.blocks| ensures p.blocks[k] == Blank(p.blocks[k]) && !p.blocks[k].received {
      TilesBlank(0, length, blockSize, k);
    }
    assert BlankAll(p.blocks) == p.blocks;
  }

  lemma {:induction false} TilesBlank(offset: nat, length: nat, size: nat, k: nat)
    requires 0 < size && offset <= length && k < |Tiles(offset, length, size)|
    ensures Tiles(offset, length, size)[k] == Blank(Tiles(offset, length, size)[k])
    decreases length - offset
  {
    var n := Min(size, length - offset);
    if k > 0 { TilesBlank(offset + n, length, size, k - 1); }
  }

  lemma WithBlockOk(p: PieceState, k: nat, data: bytes)
    requires PieceOk(p) && k < |p.blocks| && !p.blocks[k].received && |data| == p.blocks[k].length
    ensures PieceOk(WithBlock(p, k, data))
  {
    var q := WithBlock(p, k, data);
    assert BlankAll(q.blocks) == BlankAll(p.blocks);
  }

  lemma AddBlockOk(p: PieceState, offset: int, data: bytes)
    requires PieceOk(p)
    ensures var (q, r) := BlockAdded(p, offset, data); PieceOk(q) && (r.Ok? ==> r.value == q.isComplete)
  {
    var k := FindOffset(p.blocks, offset);
    if k < |p.blocks| && !p.blocks[k].received && |data| == p.blocks[k].length { WithBlockOk(p, k, data); }
  }

  /** addBlock answers true only when the piece is complete. */
  lemma AddedComplete(p: PieceState, offset: int, data: bytes)
    ensures var (q, r) := BlockAdded(p, offset, data); r.Ok? ==> r.value == q.isComplete
  {
  }

  lemma VerifyOk(p: PieceState, sha1: bytes -> bytes)
    requires PieceOk(p) && p.isComplete
    ensures PieceOk(Verified(p, sha1)) && Verified(p, sha1) == p.(isVerified := sha1(p.data.value) == p.hash)
  {
  }

  lemma ResetOk(p: PieceState)
    requires PieceOk(p)
    ensures PieceOk(Cleared(p)) && Cleared(p) == Fresh(p.index, p.length, p.hash, p.blockSize)
  {
    FreshOk(p.index, p.length, p.hash, p.blockSize);
  }

  /** Marking a missing block as not received changes nothing. */
  lemma UnmarkMissing(p: PieceState, k: nat)
    requires PieceOk(p) && k < |p.blocks| && !p.blocks[k].received
    ensures Unmark(p, p.blocks[k].offset) == p
  {
    ShapeAt(p, k);
    DivIs(p.blocks[k].offset, p.blockSize, k);
    DivBounds(p.blocks[k].offset, p.blockSize);
    assert p.blocks[k].offset == (p.blocks[k].offset / p.blockSize) * p.blockSize + p.blocks[k].offset % p.blockSize;
    assert p.blocks[k := p.blocks[k].(received := false)] == p.blocks;
  }

  // ---------------------------------------------------------------- what a complete piece holds

  /** Every received block holds the bytes of `content` at its place. */
  predicate Holds(bs: seq<Block>, content: bytes) {
    forall i :: 0 <= i < |bs| && bs[i].received ==>
      bs[i].offset + bs[i].length <= |content| && bs[i].data == content[bs[i].offset..bs[i].offset + bs[i].length]
  }

  /** The blocks from `from` on, one after the other, are the content from their first offset on. */
  lemma {:induction false} DatasAre(p: PieceState, content: bytes, from: nat)
    requires PieceOk(p) && AllReceived(p.blocks) && Holds(p.blocks, content) && |content| == p.length
    requires from <= |p.blocks|
    ensures var start := if from < |p.blocks| then p.blocks[from].offset else p.length;
            start <= p.length && Flatten(Datas(p.blocks[from..])) == content[start..]
    decreases |p.blocks| - from
  {
    hide PieceOk, Holds, AllReceived, Datas;
    if from < |p.blocks| {
      DatasAre(p, content, from + 1);
      Adjacent(p, from);
      DatasFrom(p.blocks, from);
      HeldAt(p.blocks, content, from);
      var b := p.blocks[from];
      SliceSplit(content, b.offset, b.offset + b.length);
    } else {
      NoDatas();
      assert p.blocks[from..] == [];
    }
  }

  lemma NoDatas()
    ensures Flatten(Datas([])) == []
  {
  }

  lemma HeldAt(bs: seq<Block>, content: bytes, k: nat)
    requires AllReceived(bs) && Holds(bs, content) && k < |bs|
    ensures bs[k].offset + bs[k].length <= |content| && bs[k].data == content[bs[k].offset..bs[k].offset + bs[k].length]
  {
  }

  lemma DatasFrom(bs: seq<Block>, from: nat)
    requires from < |bs|
    ensures Flatten(Datas(bs[from..])) == bs[from].data + Flatten(Datas(bs[from + 1..]))
  {
    assert bs[from..][1..] == bs[from + 1..];
    assert Datas(bs[from..])[1..] == Datas(bs[from + 1..]);
  }

  lemma SliceSplit(s: bytes, a: nat, b: nat)
    requires a <= b <= |s|
    ensures s[a..] == s[a..b] + s[b..]
  {
  }

  lemma Adjacent(p: PieceState, k: nat)
    requires PieceOk(p) && k < |p.blocks|
    ensures p.blocks[k].offset + p.blocks[k].length == if k + 1 < |p.blocks| then p.blocks[k + 1].offset else p.length
  {
    assert BlankAll(p.blocks)[k] == Blank(p.blocks[k]);
    TilesFollow(0, p.length, p.blockSize, k);
    if k + 1 < |p.blocks| {
      assert BlankAll(p.blocks)[k + 1] == Blank(p.blocks[k + 1]);
      TilesFollow(0, p.length, p.blockSize, k + 1);
      assert (k + 1) * p.blockSize == k * p.blockSize + p.blockSize;
    }
  }

  /** Whatever the order in which the blocks came, a complete piece that agrees with the content is the content. */
  lemma CompleteIsContent(p: PieceState, content: bytes)
    requires PieceOk(p) && p.isComplete && Holds(p.blocks, content) && |content| == p.length
    ensures p.data == Some(content)
  {
    DatasAre(p, content, 0);
    assert p.blocks[0..] == p.blocks;
    assert |p.blocks| > 0;
    ShapeAt(p, 0);
    assert 0 * p.blockSize == 0;
    assert content[0..] == content;
    assert content[..|content|] == content;
  }

  /** Block number `k` of the content arrives. */
  function AddNumber(p: PieceState, content: bytes, k: nat): PieceState {
    if k < |p.blocks| && p.blocks[k].offset + p.blocks[k].length <= |content| then
      BlockAdded(p, p.blocks[k].offset, content[p.blocks[k].offset..p.blocks[k].offset + p.blocks[k].length]).0
    else p
  }

  /** The blocks number `ks` of the content arrive, one after the other; repeats are allowed. */
  function AddAll(p: PieceState, content: bytes, ks: seq<nat>): PieceState {
    if ks == [] then p else AddNumber(AddAll(p, content, ks[..|ks| - 1]), content, ks[|ks| - 1])
  }

  predicate Agrees(p: PieceState, content: bytes, count: nat) {
    PieceOk(p) && Holds(p.blocks, content) && p.length == |content| && |p.blocks| == count
  }

  predicate Got(p: PieceState, i: nat) {
    i < |p.blocks| && p.blocks[i].received
  }

  lemma AddNumberIs(p: PieceState, content: bytes, k: nat)
    requires PieceOk(p) && p.length == |content| && k < |p.blocks|
    ensures var b := p.blocks[k];
            && b.offset + b.length <= |content|
            && AddNumber(p, content, k)
               == if b.received then p else WithBlock(p, k, content[b.offset..b.offset + b.length])
  {
    ShapeAt(p, k);
    FindsBlock(p, k);
  }

  lemma StoredHolds(bs: seq<Block>, k: nat, content: bytes)
    requires Holds(bs, content) && k < |bs| && bs[k].offset + bs[k].length <= |content|
    ensures Holds(Stored(bs, k, content[bs[k].offset..bs[k].offset + bs[k].length]), content)
  {
  }

  lemma AddOneAgrees(p: PieceState, content: bytes, k: nat)
    requires Agrees(p, content, |p.blocks|)
    ensures Agrees(AddNumber(p, content, k), content, |p.blocks|)
  {
    hide PieceOk, Holds;
    if k < |p.blocks| {
      AddNumberIs(p, content, k);
      var b := p.blocks[k];
      if !b.received {
        WithBlockOk(p, k, content[b.offset..b.offset + b.length]);
        StoredHolds(p.blocks, k, content);
      }
    }
  }

  lemma AddOneGot(p: PieceState, content: bytes, k: nat, i: nat)
    requires Agrees(p, content, |p.blocks|)
    ensures Got(AddNumber(p, content, k), i) <==> Got(p, i) || (i == k && k < |p.blocks|)
  {
    if k < |p.blocks| {
      AddNumberIs(p, content, k);
      hide PieceOk, AddNumber, Holds;
    }
  }

  lemma {:induction false} AddAllIs(p: PieceState, content: bytes, ks: seq<nat>, i: nat)
    requires Agrees(p, content, |p.blocks|)
    ensures Agrees(AddAll(p, content, ks), content, |p.blocks|)
    ensures Got(AddAll(p, content, ks), i) <==> Got(p, i) || (i in ks && i < |p.blocks|)
  {
    if ks != [] {
      var front, k := ks[..|ks| - 1], ks[|ks| - 1];
      AddAllIs(p, content, front, i);
      var before := AddAll(p, content, front);
      assert |before.blocks| == |p.blocks|;
      hide Agrees, Got, AddNumber;
      AddOneAgrees(before, content, k);
      AddOneGot(before, content, k, i);
      assert ks == front + [k];
    }
  }

  /**
   Blocks of the content added in any order complete a fresh piece exactly when all are there, and then it is the
   content.
   */
  lemma BlocksInAnyOrder(index: nat, content: bytes, hash: bytes, blockSize: nat, ks: seq<nat>)
    requires 0 < blockSize && 0 < |content|
    ensures var q := AddAll(Fresh(index, |content|, hash, blockSize), content, ks);
            && (q.isComplete <==> forall k: nat :: k < |Tiles(0, |content|, blockSize)| ==> k in ks)
            && (q.isComplete ==> q.data == Some(content))
  {
    var p := Fresh(index, |content|, hash, blockSize);
    var q := AddAll(p, content, ks);
    hide AddAll, Holds, Tiles;
    FreshEmpty(index, content, hash, blockSize, 0);
    AddAllIs(p, content, ks, 0);
    forall i: nat | i < |p.blocks|
      ensures Got(q, i) <==> i in ks
    {
      FreshEmpty(index, content, hash, blockSize, i);
      AddAllIs(p, content, ks, i);
    }
    AllGot(q);
    if q.isComplete { CompleteIsContent(q, content); }
  }

  lemma AllGot(p: PieceState)
    ensures AllReceived(p.blocks) <==> forall i: nat :: i < |p.blocks| ==> Got(p, i)
  {
    if forall i: nat :: i < |p.blocks| ==> Got(p, i) {
      forall i | 0 <= i < |p.blocks| ensures p.blocks[i].received { assert Got(p, i); }
    }
  }

  lemma FreshEmpty(index: nat, content: bytes, hash: bytes, blockSize: nat, i: nat)
    requires 0 < blockSize && 0 < |content|
    ensures var p := Fresh(index, |content|, hash, blockSize); Agrees(p, content, |p.blocks|) && !Got(p, i)
  {
    var p := Fresh(index, |content|, hash, blockSize);
    FreshOk(index, |content|, hash, blockSize);
    forall j | 0 <= j < |p.blocks| ensures !p.blocks[j].received { TilesFollow(0, |content|, blockSize, j); }
  }

  /** The assembled bytes are the block data in order, never cut or padded. */
  lemma AssembledExactly(p: PieceState)
    requires PieceOk(p) && p.isComplete
    ensures p.data == Some(Flatten(Datas(p.blocks))) && |p.data.value| == p.length
  {
    LengthsAddUp(p, 0);
    assert p.blocks[0..] == p.blocks;
    ShapeAt(p, 0);
    assert 0 * p.blockSize == 0;
    var all := Flatten(Datas(p.blocks));
    assert all[..|all|] == all;
  }

  lemma {:induction false} LengthsAddUp(p: PieceState, from: nat)
    requires PieceOk(p) && p.isComplete && from <= |p.blocks|
    ensures var start := if from < |p.blocks| then p.blocks[from].offset else p.length;
            |Flatten(Datas(p.blocks[from..]))| == p.length - start
    decreases |p.blocks| - from
  {
    if from < |p.blocks| {
      LengthsAddUp(p, from + 1);
      DatasFrom(p.blocks, from);
      Adjacent(p, from);
    }
  }

  // ---------------------------------------------------------------- the object

  class Piece {
    const index: nat
    const length: nat
    const hash: bytes
    const blockSize: nat
    var blocks: seq<Block>
    var isComplete: bool
    var isVerified: bool
    var data: Option<bytes>

    function View(): PieceState
      reads this
    {
      PieceState(index, length, hash, blockSize, blocks, isComplete, isVerified, data)
    }

    /** The constructor of `Piece` throws unless the hash has 20 bytes and the length is positive. */
    constructor (index: nat, length: nat, hash: bytes, blockSize: nat)
      requires |hash| == 20 && 0 < length
      ensures View() == Fresh(index, length, hash, if blockSize == 0 then BLOCK_SIZE else blockSize)
      ensures PieceOk(View())
    {
      this.index, this.length, this.hash := index, length, hash;
      this.blockSize := if blockSize == 0 then BLOCK_SIZE else blockSize;
      blocks, isComplete, isVerified, data := [], false, false, None;
      new;
      InitializeBlocks();
      FreshOk(index, length, hash, this.blockSize);
    }

    method InitializeBlocks()
      requires 0 < blockSize && blocks == []
      modifies this`blocks
      ensures blocks == Tiles(0, length, blockSize)
    {
      var offset := 0;
      while offset < length
        invariant 0 <= offset <= length
        invariant blocks + Tiles(offset, length, blockSize) == Tiles(0, length, blockSize)
        modifies this`blocks
      {
        var blockLength := Min(blockSize, length - offset);
        ghost var before := blocks;
        blocks := blocks + [Block(offset, blockLength, [], false)];
        assert before + Tiles(offset, length, blockSize) == blocks + Tiles(offset + blockLength, length, blockSize);
        offset := offset + blockLength;
      }
      assert blocks + [] == blocks;
    }

    method GetNextMissingBlock() returns (r: Option<(nat, nat)>)
      ensures r == NextMissing(View())
    {
      for i := 0 to |blocks|
        invariant forall j :: 0 <= j < i ==> blocks[j].received
      {
        if !blocks[i].received {
          return Some((blocks[i].offset, blocks[i].length));
        }
      }
      r := None;
    }

    /** blocks.find */
    method GetBlockByOffset(offset: int) returns (k: nat)
      ensures k == FindOffset(blocks, offset)
    {
      k := 0;
      while k < |blocks|
        invariant k <= |blocks|
        invariant forall j :: 0 <= j < k ==> blocks[j].offset != offset
      {
        if blocks[k].offset == offset { return; }
        k := k + 1;
      }
    }

    method AddBlock(offset: int, bytes: bytes) returns (r: Result<bool, PieceError>)
      modifies this`blocks, this`isComplete, this`data
      ensures (View(), r) == BlockAdded(old(View()), offset, bytes)
    {
      var k := GetBlockByOffset(offset);
      if k == |blocks| { return Err(InvalidOffset); }
      if blocks[k].received { return Ok(isComplete); }
      if |bytes| != blocks[k].length { return Err(LengthMismatch); }
      blocks := blocks[k := blocks[k].(data := bytes, received := true)];
      isComplete := AllReceived(blocks);
      if isComplete {
        data := Some(Assemble(blocks, length));
      }
      r := Ok(isComplete);
    }

    method Verify(sha1: bytes -> bytes) returns (valid: bool)
      requires isComplete
      modifies this`isVerified, this`data
      ensures View() == Verified(old(View()), sha1) && valid == isVerified
    {
      if data.None? {
        data := Some(Assemble(blocks, length));
      }
      isVerified := sha1(data.value) == hash;
      valid := isVerified;
    }

    method Reset()
      modifies this`blocks, this`isComplete, this`isVerified, this`data
      ensures View() == Cleared(old(View()))
    {
      ghost var was := blocks;
      for i := 0 to |blocks|
        invariant |blocks| == |was|
        invariant forall j :: 0 <= j < i ==> blocks[j] == Blank(was[j])
        invariant forall j :: i <= j < |was| ==> blocks[j] == was[j]
        modifies this`blocks
      {
        blocks := blocks[i := Blank(blocks[i])];
      }
      assert blocks == BlankAll(was);
      isComplete, isVerified, data := false, false, None;
    }

    /** What the download manager does to the block of a request that it gives up. */
    method MarkMissing(offset: nat)
      requires 0 < blockSize
      modifies this`blocks
      ensures View() == Unmark(old(View()), offset)
    {
      if offset % blockSize == 0 && offset / blockSize < |blocks| {
        var k := offset / blockSize;
        blocks := blocks[k := blocks[k].(received := false)];
      }
    }
  }
}
