/**
 What single operations of the download manager do to requests and pieces: cancels and timeouts, block messages, pauses,
 and how long a peer is asked for more. Nothing here refers to how the model looks requests up.
 */
module DownloadEffects {
  import opened Bits
  import opened Blocks
  import opened Bytes
  import opened DownloadEnd
  import opened DownloadRequests
  import opened Downloads
  import opened DownloadSafety

  /** A bitfield is read as one string of bits, the most significant bit of each byte first. */
  lemma HasPieceIff(bitfield: bytes, i: nat)
    ensures HasPiece(bitfield, i) <==> i < |ByteBits(bitfield)| && ByteBits(bitfield)[i] == 1
  {
    if i < 8 * |bitfield| {
      ByteBitAt(bitfield, i);
      BitAt(bitfield[i / 8], 8, i % 8);
      BitValue(i % 8);
    }
  }

  lemma BitValue(t: nat)
    requires t < 8
    ensures BIT_VALUES[t] == Power2(7 - t)
  {
    assert Power2(1) == 2;
    assert Power2(2) == 4;
    assert Power2(3) == 8;
    assert Power2(4) == 16;
    assert Power2(5) == 32;
    assert Power2(6) == 64;
    assert Power2(7) == 128;
  }

  // ---------------------------------------------------------------- requests that are given up

  /** The block is under way. */
  ghost predicate UnderWay(es: seq<Pending>, piece: nat, block: nat) {
    exists e :: e in es && e.piece == piece && e.block == block
  }

  /**
   In every run: after a check at `now` exactly the requests sent at most 30 seconds ago are left, and the block of an
   older one is no longer under way. No piece changes.
   */
  lemma TimedOut(t: Torrent, done: set<nat>, ops: seq<Op>, now: int, maxActive: nat, sha1: bytes -> bytes)
    requires TorrentOk(t) && forall i <- done :: i < |t.hashes|
    ensures var s := Run(t, done, ops, maxActive, sha1);
            var u := Run(t, done, ops + [OpGiveUp(Older(now))], maxActive, sha1);
            && (forall e :: e in u.pending <==> e in s.pending && now - e.timestamp <= 30000)
            && (forall e <- s.pending :: UnderWay(u.pending, e.piece, e.block) <==> now - e.timestamp <= 30000)
            && u == s.(pending := u.pending)
  {
    hide Run, Step, DownloadSafety.Ok, GiveUp, UnderWay;
    var s := Run(t, done, ops, maxActive, sha1);
    EveryRunOk(t, done, ops, maxActive, sha1);
    RunSnoc(t, done, ops, OpGiveUp(Older(now)), maxActive, sha1);
    GiveUpStep(s, Older(now), maxActive, sha1);
    LeftAfter(t, done, s, Older(now), sha1);
  }

  /** In every run: after a peer's requests are cancelled exactly those to other peers are left. */
  lemma Cancelled(t: Torrent, done: set<nat>, ops: seq<Op>, key: string, maxActive: nat, sha1: bytes -> bytes)
    requires TorrentOk(t) && forall i <- done :: i < |t.hashes|
    ensures var s := Run(t, done, ops, maxActive, sha1);
            var u := Run(t, done, ops + [OpGiveUp(OfPeer(key))], maxActive, sha1);
            && (forall e :: e in u.pending <==> e in s.pending && e.peer != key)
            && (forall e <- s.pending :: UnderWay(u.pending, e.piece, e.block) <==> e.peer != key)
            && u == s.(pending := u.pending)
  {
    hide Run, Step, DownloadSafety.Ok, GiveUp, UnderWay;
    var s := Run(t, done, ops, maxActive, sha1);
    EveryRunOk(t, done, ops, maxActive, sha1);
    RunSnoc(t, done, ops, OpGiveUp(OfPeer(key)), maxActive, sha1);
    GiveUpStep(s, OfPeer(key), maxActive, sha1);
    LeftAfter(t, done, s, OfPeer(key), sha1);
  }

  lemma GiveUpStep(s: State, q: Query, maxActive: nat, sha1: bytes -> bytes)
    requires q.OfPeer? || q.Older?
    ensures Step(s, OpGiveUp(q), maxActive, sha1) == GiveUp(s, q)
  {
  }

  lemma LeftAfter(t: Torrent, done: set<nat>, s: State, q: Query, sha1: bytes -> bytes)
    requires DownloadSafety.Ok(t, done, s, sha1)
    ensures var u := GiveUp(s, q);
            && u == s.(pending := u.pending)
            && (forall e :: e in u.pending <==> e in s.pending && !Matches(e, q))
            && (forall e <- s.pending :: UnderWay(u.pending, e.piece, e.block) <==> !Matches(e, q))
  {
    hide DownloadSafety.Ok, GiveUp, Matches;
    GiveUpIs(t, done, s, q, sha1);
    forall e | e in s.pending ensures UnderWay(GiveUp(s, q).pending, e.piece, e.block) <==> !Matches(e, q) {
      OneFor(t, done, s, e, sha1);
    }
  }

  /** No other request is for the same piece. */
  lemma OneFor(t: Torrent, done: set<nat>, s: State, e: Pending, sha1: bytes -> bytes)
    requires DownloadSafety.Ok(t, done, s, sha1) && e in s.pending
    ensures forall x <- s.pending :: x.piece == e.piece ==> x == e
  {
    hide PiecesGood, CompletedGood, ActiveGood, RequestGood;
    var k :| 0 <= k < |s.pending| && s.pending[k] == e;
  }

  // ---------------------------------------------------------------- block messages

  /** The message brings a block of the right length that is asked for. */
  ghost predicate Brings(s: State, index: nat, begin: nat, data: bytes) {
    && index < |s.pieces| && UnderWay(s.pending, index, begin)
    && var k := FirstMissing(s.pieces[index].blocks);
       k < |s.pieces[index].blocks| && |data| == s.pieces[index].blocks[k].length
  }

  /**
   A block message in any state of a run. One that is not asked for changes nothing. One that is ends the only request
   for its piece; a wrong length does no more than that. The block is stored in its place, and if it was the last one
   missing, the piece is completed if the bytes of all its blocks have the hash of the torrent, and otherwise every
   block of it is missing again and the piece is no longer active.
   */
  lemma BlockArrives(t: Torrent, done: set<nat>, s: State, index: nat, begin: nat, data: bytes, sha1: bytes -> bytes)
    requires DownloadSafety.Ok(t, done, s, sha1) && index < |s.pieces|
    ensures var u, p := HandlePiece(s, index, begin, data, sha1), s.pieces[index];
            var k := FirstMissing(p.blocks);
            && (!UnderWay(s.pending, index, begin) ==> u == s)
            && (UnderWay(s.pending, index, begin) ==>
                  forall e :: e in u.pending <==> e in s.pending && e.piece != index)
            && (UnderWay(s.pending, index, begin) && !Brings(s, index, begin, data) ==> u == s.(pending := u.pending))
            && (Brings(s, index, begin, data) ==> StoredAt(s, u, index, k, data, sha1))
  {
    UnderWayHas(s.pending, index, begin);
    if UnderWay(s.pending, index, begin) {
      RequestedBlock(t, done, s, index, begin, sha1);
      PendingAfter(t, done, s, index, begin, data, sha1);
      BlockStored(t, done, s, index, begin, data, sha1);
    }
  }

  /** `data` became block `k` of the piece, with what follows from it. */
  ghost predicate StoredAt(s: State, u: State, index: nat, k: nat, data: bytes, sha1: bytes -> bytes)
    requires index < |s.pieces| && k < |s.pieces[index].blocks|
  {
    var p := s.pieces[index];
    var blocks := p.blocks[k := Block(p.blocks[k].offset, p.blocks[k].length, data, true)];
    var complete := forall j :: 0 <= j < |blocks| ==> blocks[j].received;
    && |u.pieces| == |s.pieces| && (forall j: nat :: j < |s.pieces| && j != index ==> u.pieces[j] == s.pieces[j])
    && u == s.(pieces := u.pieces, active := u.active, completed := u.completed, pending := u.pending,
               downloaded := u.downloaded, writing := u.writing)
    && if !complete then
         && u.pieces[index] == p.(blocks := blocks) && u.active == s.active
         && u.completed == s.completed && u.writing == s.writing
       else if sha1(Flatten(Datas(blocks))) == p.hash then
         && u.pieces[index].blocks == blocks && LeftOut(s.active, u.active, index)
         && u.completed == s.completed + {index} && u.writing == s.writing + 1
       else
         && |u.pieces[index].blocks| == |blocks|
         && (forall j :: 0 <= j < |blocks| ==> !u.pieces[index].blocks[j].received)
         && LeftOut(s.active, u.active, index) && u.completed == s.completed && u.writing == s.writing
  }

  /** `r` is `s` with its one `x` taken out. */
  ghost predicate LeftOut(s: seq<nat>, r: seq<nat>, x: nat) {
    x !in r && exists m :: 0 <= m <= |r| && s == r[..m] + [x] + r[m..]
  }

  lemma {:induction false} WithoutLeaves(s: seq<nat>, x: nat)
    requires x in s && forall i, j :: 0 <= i < j < |s| ==> s[i] != s[j]
    ensures LeftOut(s, Without(s, x), x)
  {
    hide LeftOut;
    var front, last := s[..|s| - 1], s[|s| - 1];
    assert s == front + [last];
    if last == x {
      WithoutNone(front, x);
      LeftOutLast(front, x);
    } else {
      WithoutLeaves(front, x);
      LeftOutSnoc(front, Without(front, x), x, last);
    }
  }

  lemma LeftOutLast(r: seq<nat>, x: nat)
    requires x !in r
    ensures LeftOut(r + [x], r, x)
  {
    assert r[..|r|] + [x] + r[|r|..] == r + [x];
  }

  lemma LeftOutSnoc(s: seq<nat>, r: seq<nat>, x: nat, last: nat)
    requires LeftOut(s, r, x) && last != x
    ensures LeftOut(s + [last], r + [last], x)
  {
    var m :| 0 <= m <= |r| && s == r[..m] + [x] + r[m..];
    var t := r + [last];
    assert t[..m] == r[..m] && t[m..] == r[m..] + [last];
    assert s + [last] == t[..m] + [x] + t[m..];
  }

  lemma {:induction false} WithoutNone(s: seq<nat>, x: nat)
    requires x !in s
    ensures Without(s, x) == s
  {
    if s != [] { WithoutNone(s[..|s| - 1], x); }
  }

  lemma UnderWayHas(es: seq<Pending>, piece: nat, block: nat)
    ensures UnderWay(es, piece, block) <==> Has(es, AtBlock(piece, block))
  {
    if UnderWay(es, piece, block) {
      var e :| e in es && e.piece == piece && e.block == block;
      var i :| 0 <= i < |es| && es[i] == e;
      assert Matches(es[i], AtBlock(piece, block));
    }
    if Has(es, AtBlock(piece, block)) {
      var i :| 0 <= i < |es| && Matches(es[i], AtBlock(piece, block));
      assert es[i] in es;
    }
  }

  /** What is asked for is the first missing block. */
  lemma RequestedBlock(t: Torrent, done: set<nat>, s: State, index: nat, begin: nat, sha1: bytes -> bytes)
    requires DownloadSafety.Ok(t, done, s, sha1) && index < |s.pieces| && UnderWay(s.pending, index, begin)
    ensures var p := s.pieces[index];
            var k := FirstMissing(p.blocks);
            k < |p.blocks| && p.blocks[k].offset == begin && FindOffset(p.blocks, begin) == k && PieceOk(p)
  {
    hide PieceOk;
    UnderWayHas(s.pending, index, begin);
    RequestedActive(t, done, s, index, begin, sha1);
    var e :| e in s.pending && e.piece == index && e.block == begin;
    var i :| 0 <= i < |s.pending| && s.pending[i] == e;
    assert RequestGood(s.pieces, s.active, s.pending[i]);
    FindsBlock(s.pieces[index], FirstMissing(s.pieces[index].blocks));
  }

  lemma DropOnce(es: seq<Pending>, x: Pending)
    requires x in es && forall y <- es :: y.piece == x.piece ==> y == x
    ensures var once := Drop(es, AtBlock(x.piece, x.block));
            && (forall e :: e in once <==> e in es && e.piece != x.piece)
            && (forall e :: e in Drop(once, OfPiece(x.piece)) <==> e in es && e.piece != x.piece)
  {
    hide Drop;
    var once := Drop(es, AtBlock(x.piece, x.block));
    forall e ensures e in once <==> e in es && e.piece != x.piece { DropElements(es, AtBlock(x.piece, x.block), e); }
    forall e ensures e in Drop(once, OfPiece(x.piece)) <==> e in once && e.piece != x.piece {
      DropElements(once, OfPiece(x.piece), e);
    }
  }

  lemma PendingAfter(t: Torrent, done: set<nat>, s: State, index: nat, begin: nat, data: bytes, sha1: bytes -> bytes)
    requires DownloadSafety.Ok(t, done, s, sha1) && index < |s.pieces| && UnderWay(s.pending, index, begin)
    ensures forall e :: e in HandlePiece(s, index, begin, data, sha1).pending <==> e in s.pending && e.piece != index
  {
    UnderWayHas(s.pending, index, begin);
    var x :| x in s.pending && x.piece == index && x.block == begin;
    hide DownloadSafety.Ok, HandlePiece, UnderWay, Has, Drop;
    OneFor(t, done, s, x, sha1);
    DropOnce(s.pending, x);
    PendingIs(s, index, begin, data, sha1);
  }

  lemma PendingIs(s: State, index: nat, begin: nat, data: bytes, sha1: bytes -> bytes)
    requires index < |s.pieces| && Has(s.pending, AtBlock(index, begin))
    ensures var u, once := HandlePiece(s, index, begin, data, sha1), Drop(s.pending, AtBlock(index, begin));
            u.pending == once || u.pending == Drop(once, OfPiece(index))
  {
    hide BlockAdded, Verified, Without, Cleared, Has, Drop;
  }

  lemma BlockStored(t: Torrent, done: set<nat>, s: State, index: nat, begin: nat, data: bytes, sha1: bytes -> bytes)
    requires DownloadSafety.Ok(t, done, s, sha1) && index < |s.pieces| && UnderWay(s.pending, index, begin)
    ensures var u := HandlePiece(s, index, begin, data, sha1);
            var k := FirstMissing(s.pieces[index].blocks);
            if Brings(s, index, begin, data) then StoredAt(s, u, index, k, data, sha1)
            else u == s.(pending := u.pending)
  {
    hide *;
    UnderWayHas(s.pending, index, begin);
    RequestedBlock(t, done, s, index, begin, sha1);
    var k := FirstMissing(s.pieces[index].blocks);
    if |data| == s.pieces[index].blocks[k].length {
      BroughtIs(s, index, begin, data);
      RequestedActive(t, done, s, index, begin, sha1);
      ActiveOnce(t, done, s, sha1);
      BlockFits(s, index, k, data, sha1);
    } else {
      BroughtIs(s, index, begin, data);
      BlockRefused(s, index, k, data, sha1);
    }
  }

  lemma ActiveOnce(t: Torrent, done: set<nat>, s: State, sha1: bytes -> bytes)
    requires DownloadSafety.Ok(t, done, s, sha1)
    ensures forall i, j :: 0 <= i < j < |s.active| ==> s.active[i] != s.active[j]
  {
  }

  lemma BroughtIs(s: State, index: nat, begin: nat, data: bytes)
    requires index < |s.pieces| && UnderWay(s.pending, index, begin)
    requires FirstMissing(s.pieces[index].blocks) < |s.pieces[index].blocks|
    ensures Brings(s, index, begin, data)
       <==> |data| == s.pieces[index].blocks[FirstMissing(s.pieces[index].blocks)].length
  {
    hide UnderWay;
  }

  lemma BlockRefused(s: State, index: nat, k: nat, data: bytes, sha1: bytes -> bytes)
    requires index < |s.pieces| && k < |s.pieces[index].blocks| && PieceOk(s.pieces[index])
    requires !s.pieces[index].blocks[k].received && |data| != s.pieces[index].blocks[k].length
    requires Has(s.pending, AtBlock(index, s.pieces[index].blocks[k].offset))
    ensures var u := HandlePiece(s, index, s.pieces[index].blocks[k].offset, data, sha1);
            u == s.(pending := u.pending)
  {
    AddedIs(s.pieces[index], k, data);
    hide PieceOk, Has, Drop, BlockAdded;
    assert s.pieces[index := s.pieces[index]] == s.pieces;
  }

  lemma BlockFits(s: State, index: nat, k: nat, data: bytes, sha1: bytes -> bytes)
    requires index < |s.pieces| && k < |s.pieces[index].blocks| && PieceOk(s.pieces[index])
    requires !s.pieces[index].blocks[k].received && |data| == s.pieces[index].blocks[k].length
    requires Has(s.pending, AtBlock(index, s.pieces[index].blocks[k].offset))
    requires index in s.active && forall i, j :: 0 <= i < j < |s.active| ==> s.active[i] != s.active[j]
    ensures StoredAt(s, HandlePiece(s, index, s.pieces[index].blocks[k].offset, data, sha1), index, k, data, sha1)
  {
    hide PieceOk, Has, Drop, BlockAdded, WithBlock, Verified, Cleared, Without, LeftOut, Datas, Flatten;
    var p := s.pieces[index];
    AddedIs(p, k, data);
    CompletedIs(p, k, data, sha1);
    WithoutLeaves(s.active, index);
  }

  lemma AddedIs(p: PieceState, k: nat, data: bytes)
    requires PieceOk(p) && k < |p.blocks| && !p.blocks[k].received
    ensures BlockAdded(p, p.blocks[k].offset, data)
         == if |data| == p.blocks[k].length then (WithBlock(p, k, data), Ok(WithBlock(p, k, data).isComplete))
            else (p, Err(LengthMismatch))
  {
    FindsBlock(p, k);
  }

  /** The piece with its new block: whether it is complete, what it holds then, and what a reset leaves. */
  lemma CompletedIs(p: PieceState, k: nat, data: bytes, sha1: bytes -> bytes)
    requires PieceOk(p) && k < |p.blocks| && !p.blocks[k].received && |data| == p.blocks[k].length
    ensures var q := WithBlock(p, k, data);
            var blocks := p.blocks[k := Block(p.blocks[k].offset, p.blocks[k].length, data, true)];
            && q.blocks == blocks && (q.isComplete <==> forall j :: 0 <= j < |blocks| ==> blocks[j].received)
            && (!q.isComplete ==> q == p.(blocks := blocks))
            && (q.isComplete ==>
                  var v := Verified(q, sha1);
                  && v.blocks == blocks && (v.isVerified <==> sha1(Flatten(Datas(blocks))) == p.hash)
                  && |Cleared(v).blocks| == |blocks|
                  && forall j :: 0 <= j < |blocks| ==> !Cleared(v).blocks[j].received)
  {
    WithBlockOk(p, k, data);
    var q := WithBlock(p, k, data);
    assert q.blocks == p.blocks[k := Block(p.blocks[k].offset, p.blocks[k].length, data, true)];
    if q.isComplete { AssembledExactly(q); }
  }

  /** When the last missing piece is completed, the return of its write declares the download complete and stops it. */
  lemma LastPieceCompletes(t: Torrent, done: set<nat>, s: State, index: nat, begin: nat, data: bytes, maxActive: nat,
                           sha1: bytes -> bytes)
    requires DownloadSafety.Ok(t, done, s, sha1) && index < |s.pieces|
    requires var u := HandlePiece(s, index, begin, data, sha1);
             u.completed != s.completed && forall i: nat :: i < |s.pieces| ==> i in u.completed
    ensures var v := Step(HandlePiece(s, index, begin, data, sha1), OpAfterWrite, maxActive, sha1);
            v.isComplete && !v.isRunning && v.isPaused
  {
    hide *;
    var u := HandlePiece(s, index, begin, data, sha1);
    BlockArrives(t, done, s, index, begin, data, sha1);
    HandlePieceKeeps(t, done, s, index, begin, data, sha1);
    WritingCounts(s, u, index, begin, data, sha1);
    AllThere(t, done, u, sha1);
    StopsAndPauses(u, maxActive, sha1);
  }

  lemma WritingCounts(s: State, u: State, index: nat, begin: nat, data: bytes, sha1: bytes -> bytes)
    requires index < |s.pieces| && (!UnderWay(s.pending, index, begin) ==> u == s)
    requires UnderWay(s.pending, index, begin) && !Brings(s, index, begin, data) ==> u == s.(pending := u.pending)
    requires Brings(s, index, begin, data) ==> StoredAt(s, u, index, FirstMissing(s.pieces[index].blocks), data, sha1)
    ensures |u.pieces| == |s.pieces| && (u.completed != s.completed ==> u.writing > 0)
  {
    hide UnderWay, LeftOut, Datas, Flatten;
  }

  lemma AllThere(t: Torrent, done: set<nat>, u: State, sha1: bytes -> bytes)
    requires DownloadSafety.Ok(t, done, u, sha1) && forall i: nat :: i < |u.pieces| ==> i in u.completed
    ensures |u.completed| == |u.pieces|
  {
    hide PiecesGood, ActiveGood, PendingGood, BytesOf, Secured;
    FullSet(u.completed, |u.pieces|);
  }

  // ---------------------------------------------------------------- when requests are sent

  lemma {:induction false} LoopAsks(s: State, peer: Peer, availability: seq<int>, maxActive: nat, now: int, count: nat)
    ensures var u := RequestLoop(s, peer, availability, maxActive, now, count).0;
            u.isRunning == s.isRunning && u.isPaused == s.isPaused && u.skipped == s.skipped
    decreases maxActive - count
  {
    hide SelectForPeer, Has;
    if count < maxActive {
      var (next, outcome) := RequestNext(s, peer, availability, now);
      if outcome.Sent? { LoopAsks(next, peer, availability, maxActive, now, count + 1); }
    }
  }

  lemma {:induction false} AllAsk(s: State, peers: seq<Peer>, availability: seq<int>, maxActive: nat, now: int)
    ensures var u := RequestAll(s, peers, availability, maxActive, now);
            u.isRunning == s.isRunning && u.isPaused == s.isPaused && u.skipped == s.skipped
    decreases |peers|
  {
    hide RequestLoop;
    if peers != [] {
      LoopAsks(s, peers[0], availability, maxActive, now, CountMatching(s.pending, OfPeer(peers[0].key)));
      var (next, outcome) := RequestForPeer(s, peers[0], availability, maxActive, now);
      if !outcome.Threw? { AllAsk(next, peers[1..], availability, maxActive, now); }
    }
  }

  /** Nothing is asked for: stopped and not started again, or paused and neither started nor resumed. */
  ghost predicate Quiet(s: State, ops: seq<Op>) {
    || (!s.isRunning && forall op <- ops :: !op.OpStart?)
    || (s.isPaused && forall op <- ops :: !op.OpStart? && !op.OpResume?)
  }

  lemma DropLess(es: seq<Pending>, q: Query)
    ensures forall e <- Drop(es, q) :: e in es
  {
    forall e | e in Drop(es, q) ensures e in es { DropElements(es, q, e); }
  }

  lemma MessageLess(s: State, index: int, begin: int, data: bytes, sha1: bytes -> bytes)
    ensures var u := HandlePiece(s, index, begin, data, sha1);
            && u.isRunning == s.isRunning && u.isPaused == s.isPaused && u.skipped == s.skipped
            && forall e <- u.pending :: e in s.pending
  {
    hide BlockAdded, Verified, Without, Cleared, Has, Drop;
    var once := Drop(s.pending, AtBlock(index, begin));
    DropLess(s.pending, AtBlock(index, begin));
    DropLess(once, OfPiece(index));
  }

  lemma QuietStep(s: State, op: Op, maxActive: nat, sha1: bytes -> bytes)
    requires Quiet(s, [op])
    ensures var u := Step(s, op, maxActive, sha1);
            && (!s.isRunning && !op.OpStart? ==> !u.isRunning)
            && (s.isPaused && !op.OpStart? && !op.OpResume? ==> u.isPaused)
            && forall e <- u.pending :: e in s.pending
  {
    assert op in [op];
    hide Quiet, RequestAll, HandlePiece, Has, Drop, UnmarkAll, SelectionDone;
    match op
    case OpPiece(index, begin, data) => MessageLess(s, index, begin, data, sha1);
    case OpGiveUp(q) => DropLess(s.pending, q);
    case _ =>
  }

  /** A stopped or paused manager asks for nothing more, whatever else happens, until it is started or resumed. */
  lemma {:induction false} QuietAsksNothing(t: Torrent, done: set<nat>, before: seq<Op>, later: seq<Op>, maxActive: nat,
                                            sha1: bytes -> bytes)
    requires Quiet(Run(t, done, before, maxActive, sha1), later)
    ensures var s, u := Run(t, done, before, maxActive, sha1), Run(t, done, before + later, maxActive, sha1);
            && (!s.isRunning && (forall op <- later :: !op.OpStart?) ==> !u.isRunning)
            && (s.isPaused && (forall op <- later :: !op.OpStart? && !op.OpResume?) ==> u.isPaused)
            && forall e <- u.pending :: e in s.pending
    decreases |later|
  {
    hide Step;
    if later == [] {
      assert before + [] == before;
    } else {
      var front, op := later[..|later| - 1], later[|later| - 1];
      assert before + later == (before + front) + [op];
      assert op in later && forall o <- front :: o in later;
      QuietAsksNothing(t, done, before, front, maxActive, sha1);
      RunSnoc(t, done, before + front, op, maxActive, sha1);
      hide Run;
      QuietStep(Run(t, done, before + front, maxActive, sha1), op, maxActive, sha1);
    }
  }

  /** Before its first start a manager asks for nothing. */
  lemma NothingBeforeStart(t: Torrent, done: set<nat>, ops: seq<Op>, maxActive: nat, sha1: bytes -> bytes)
    requires forall op <- ops :: !op.OpStart?
    ensures Run(t, done, ops, maxActive, sha1).pending == [] && !Run(t, done, ops, maxActive, sha1).isRunning
  {
    RunNothing(t, done, maxActive, sha1);
    var s := Run(t, done, [], maxActive, sha1);
    assert s.pending == [] && !s.isRunning && Quiet(s, ops);
    hide Run, Init, Quiet;
    assert [] + ops == ops;
    QuietAsksNothing(t, done, [], ops, maxActive, sha1);
    var u := Run(t, done, ops, maxActive, sha1);
    assert forall i :: 0 <= i < |u.pending| ==> u.pending[i] in u.pending;
  }

  /** The pieces to be skipped are those set last; nothing else changes them. */
  lemma SkippedIs(s: State, op: Op, maxActive: nat, sha1: bytes -> bytes)
    ensures Step(s, op, maxActive, sha1).skipped
         == match op case OpSetSkipped(pieces) => pieces case OpClearSkipped => {} case _ => s.skipped
  {
    hide RequestAll, HandlePiece, Drop, UnmarkAll, SelectionDone;
    match op
    case OpRequest(peers, availability, now) => AllAsk(s, peers, availability, maxActive, now);
    case OpResume(peers, availability, now) => AllAsk(s.(isPaused := false), peers, availability, maxActive, now);
    case OpPiece(index, begin, data) => MessageLess(s, index, begin, data, sha1);
    case _ =>
  }

  /** Stopping and pausing make it so, and the end of a download stops it. */
  lemma StopsAndPauses(s: State, maxActive: nat, sha1: bytes -> bytes)
    ensures !Step(s, OpStop, maxActive, sha1).isRunning && Step(s, OpPause, maxActive, sha1).isPaused
    ensures var u := Step(s, OpAfterWrite, maxActive, sha1);
            s.writing > 0 && |s.completed| == |s.pieces| ==> u.isComplete && !u.isRunning && u.isPaused
    ensures var u := Step(s, OpStart, maxActive, sha1); u.isRunning && (!s.isRunning ==> !u.isPaused)
  {
  }

  /**
   In every state of a run: a request is sent exactly if the socket takes it and either the first active piece that the
   peer has is not under way yet, or the peer has no active piece and some piece is wanted and available.
   */
  lemma SentIff(t: Torrent, done: set<nat>, s: State, peer: Peer, availability: seq<int>, now: int, j: nat,
                sha1: bytes -> bytes)
    requires DownloadSafety.Ok(t, done, s, sha1) && peer.bitfield.Some? && j <= |s.active|
    requires forall i :: 0 <= i < j ==> Lacks(peer, s.active[i])
    requires j < |s.active| ==> HasPiece(peer.bitfield.value, s.active[j])
    ensures RequestNext(s, peer, availability, now).1 == Sent
       <==> && peer.canSend
            && if j < |s.active| then forall e <- s.pending :: e.piece != s.active[j]
               else exists i: nat :: i < |s.pieces| && Wanted(s, availability, i)
  {
    hide HasPiece, SelectNext, Has, MissingOf, PiecesGood, CompletedGood, PendingGood, BytesOf;
    if j < |s.active| {
      assert s.active[j] in s.active;
      IncompleteMisses(t, done, s, s.active[j], sha1);
      hide ActiveGood;
      FirstUsable(s, peer, 0, j);
      UnderWayIff(t, done, s, s.active[j], sha1);
    } else {
      NoneUsableIff(t, done, s, peer, 0, sha1);
      hide ActiveGood;
      RarestFirst(s, availability);
      var next := SelectNext(s, availability);
      if next.Some? {
        NewPieceFree(t, done, s, availability, sha1);
        assert Wanted(s, availability, next.value);
      } else {
        assert forall i: nat :: i < |s.pieces| && Wanted(s, availability, i) ==> Eligible(s, availability, i);
      }
    }
  }

  /** Selected, not there yet, not started, and some peer has it. */
  ghost predicate Wanted(s: State, availability: seq<int>, i: nat) {
    i !in s.skipped && i !in s.completed && i !in s.active && i < |availability| && availability[i] > 0
  }

  /** The rarest wanted piece misses a block, which is not under way. */
  lemma NewPieceFree(t: Torrent, done: set<nat>, s: State, availability: seq<int>, sha1: bytes -> bytes)
    requires DownloadSafety.Ok(t, done, s, sha1) && SelectNext(s, availability).Some?
    ensures var i := SelectNext(s, availability).value;
            MissingOf(s.pieces, i).Some? && !Has(s.pending, AtBlock(i, MissingOf(s.pieces, i).value.0))
  {
    hide SelectNext, Has, MissingOf, DownloadSafety.Ok;
    RarestFirst(s, availability);
    var i := SelectNext(s, availability).value;
    IncompleteMisses(t, done, s, i, sha1);
    NotUnderWay(t, done, s, i, MissingOf(s.pieces, i).value.0, sha1);
  }

  lemma {:induction false} FirstUsable(s: State, peer: Peer, k: nat, j: nat)
    requires k <= j < |s.active| && peer.bitfield.Some? && MissingOf(s.pieces, s.active[j]).Some?
    requires forall i :: k <= i < j ==> Lacks(peer, s.active[i])
    requires HasPiece(peer.bitfield.value, s.active[j])
    ensures FromActive(s, peer, k) == Chosen(s.active[j])
    decreases j - k
  {
    hide HasPiece, MissingOf;
    if k < j { FirstUsable(s, peer, k + 1, j); }
  }

  /** The next block of an active piece is under way exactly when some block of it is. */
  lemma UnderWayIff(t: Torrent, done: set<nat>, s: State, i: nat, sha1: bytes -> bytes)
    requires DownloadSafety.Ok(t, done, s, sha1) && MissingOf(s.pieces, i).Some?
    ensures Has(s.pending, AtBlock(i, MissingOf(s.pieces, i).value.0)) <==> exists e :: e in s.pending && e.piece == i
  {
    hide DownloadSafety.Ok, MissingOf, Has;
    UnderWayHas(s.pending, i, MissingOf(s.pieces, i).value.0);
    if e :| e in s.pending && e.piece == i {
      AskedBlock(t, done, s, e, sha1);
    }
  }

  lemma AskedBlock(t: Torrent, done: set<nat>, s: State, e: Pending, sha1: bytes -> bytes)
    requires DownloadSafety.Ok(t, done, s, sha1) && e in s.pending
    ensures MissingOf(s.pieces, e.piece).Some? && MissingOf(s.pieces, e.piece).value.0 == e.block
  {
    hide PiecesGood, CompletedGood, ActiveGood, BytesOf, MissingOf;
    var k :| 0 <= k < |s.pending| && s.pending[k] == e;
    assert RequestGood(s.pieces, s.active, s.pending[k]);
  }

  /**
   In every state of a run: a peer that may be asked is asked until it has `maxActive` requests under way, or choosing a
   piece throws, or nothing more can be sent to it.
   */
  lemma AsksWhileItCan(t: Torrent, done: set<nat>, s: State, peer: Peer, availability: seq<int>, maxActive: nat,
                       now: int, sha1: bytes -> bytes)
    requires DownloadSafety.Ok(t, done, s, sha1) && !peer.choking && peer.handshakeComplete
    ensures var (u, outcome) := RequestForPeer(s, peer, availability, maxActive, now);
            outcome.Threw? || RequestsTo(u.pending, peer.key) >= maxActive
            || !RequestNext(u, peer, availability, now).1.Sent?
  {
    CountIs(RequestForPeer(s, peer, availability, maxActive, now).0.pending, peer.key);
    LoopGoesOn(t, done, s, peer, availability, maxActive, now, CountMatching(s.pending, OfPeer(peer.key)), sha1);
  }

  lemma {:induction false} LoopGoesOn(t: Torrent, done: set<nat>, s: State, peer: Peer, availability: seq<int>,
                                      maxActive: nat, now: int, count: nat, sha1: bytes -> bytes)
    requires DownloadSafety.Ok(t, done, s, sha1) && count == CountMatching(s.pending, OfPeer(peer.key))
    ensures var (u, outcome) := RequestLoop(s, peer, availability, maxActive, now, count);
            outcome.Threw? || CountMatching(u.pending, OfPeer(peer.key)) >= maxActive
            || !RequestNext(u, peer, availability, now).1.Sent?
    decreases maxActive - count
  {
    hide DownloadSafety.Ok, RequestNext, CountMatching;
    if count < maxActive {
      var (next, outcome) := RequestNext(s, peer, availability, now);
      RequestNextKeeps(t, done, s, peer, availability, now, sha1);
      CountNext(s, peer, availability, now, peer.key);
      if outcome.Sent? {
        LoopGoesOn(t, done, next, peer, availability, maxActive, now, count + 1, sha1);
      } else if outcome.NotSent? {
        StillNotSent(t, done, s, peer, availability, now, sha1);
      }
    }
  }

  /** What could not be sent cannot be sent at a second attempt. */
  lemma StillNotSent(t: Torrent, done: set<nat>, s: State, peer: Peer, availability: seq<int>, now: int,
                     sha1: bytes -> bytes)
    requires DownloadSafety.Ok(t, done, s, sha1) && RequestNext(s, peer, availability, now).1 == NotSent
    ensures !RequestNext(RequestNext(s, peer, availability, now).0, peer, availability, now).1.Sent?
  {
    hide DownloadSafety.Ok, FromActive, SelectNext, Has, MissingOf;
    if peer.canSend {
      FromActiveIs(s, peer, 0);
      if SelectNext(s, availability).Some? { NewPieceFree(t, done, s, availability, sha1); }
      assert RequestNext(s, peer, availability, now).0 == s;
    }
  }
}
