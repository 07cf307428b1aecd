/**
 Which blocks are asked of which peers: how much is under way at a time, and requests for pieces a peer does not have.
 */
module DownloadRequests {
  import opened Blocks
  import opened Bytes
  import opened DownloadEnd
  import opened Downloads
  import opened DownloadSafety
  import opened Sorting

  /** A piece that is not complete misses a block. */
  lemma IncompleteMisses(t: Torrent, done: set<nat>, s: State, i: nat, sha1: bytes -> bytes)
    requires DownloadSafety.Ok(t, done, s, sha1) && i < |s.pieces| && i !in s.completed
    ensures MissingOf(s.pieces, i).Some?
  {
    assert PieceGood(t, i, s.pieces[i], false);
  }

  // ---------------------------------------------------------------- one block at a time

  /** A bitfield, once sent, names every piece. */
  predicate HasAll(peer: Peer, count: nat) {
    peer.bitfield.Some? ==> forall i: nat :: i < count ==> HasPiece(peer.bitfield.value, i)
  }

  predicate AsksSeeds(op: Op, count: nat) {
    match op
    case OpRequest(peers, _, _) => forall p <- peers :: HasAll(p, count)
    case OpResume(peers, _, _) => forall p <- peers :: HasAll(p, count)
    case _ => true
  }

  predicate OneAtATime(s: State) {
    |s.active| <= 1 && |s.pending| <= 1
  }

  /** What is under way belongs to an active piece and is for its first missing block. */
  lemma PendingIsMissing(t: Torrent, done: set<nat>, s: State, sha1: bytes -> bytes)
    requires DownloadSafety.Ok(t, done, s, sha1) && s.pending != []
    ensures var e := s.pending[0];
            && e.piece in s.active
            && MissingOf(s.pieces, e.piece).Some? && MissingOf(s.pieces, e.piece).value.0 == e.block
            && Has(s.pending, AtBlock(e.piece, e.block))
  {
    hide MissingOf;
    assert RequestGood(s.pieces, s.active, s.pending[0]);
    assert Matches(s.pending[0], AtBlock(s.pending[0].piece, s.pending[0].block));
  }

  /** A peer that has every piece is only ever asked for the active one. */
  lemma ActiveFirst(t: Torrent, done: set<nat>, s: State, peer: Peer, availability: seq<int>, sha1: bytes -> bytes)
    requires DownloadSafety.Ok(t, done, s, sha1) && HasAll(peer, |s.pieces|) && |s.active| == 1
    ensures SelectForPeer(s, peer, availability) == if peer.bitfield.None? then NoBitfield else Chosen(s.active[0])
  {
    hide MissingOf, HasPiece, PiecesGood, CompletedGood, PendingGood, BytesOf;
    var a := s.active[0];
    assert a in s.active;
    IncompleteMisses(t, done, s, a, sha1);
  }

  lemma RequestNextOne(t: Torrent, done: set<nat>, s: State, peer: Peer, availability: seq<int>, now: int,
                       sha1: bytes -> bytes)
    requires DownloadSafety.Ok(t, done, s, sha1) && HasAll(peer, |s.pieces|) && OneAtATime(s)
    ensures OneAtATime(RequestNext(s, peer, availability, now).0)
  {
    if |s.active| == 1 { ActiveFirst(t, done, s, peer, availability, sha1); }
    if s.pending != [] { PendingIsMissing(t, done, s, sha1); }
    hide DownloadSafety.Ok, SelectForPeer, Has, MissingOf, HasAll;
  }

  lemma {:induction false} RequestLoopOne(t: Torrent, done: set<nat>, s: State, peer: Peer, availability: seq<int>,
                                          maxActive: nat, now: int, count: nat, sha1: bytes -> bytes)
    requires DownloadSafety.Ok(t, done, s, sha1) && HasAll(peer, |s.pieces|) && OneAtATime(s)
    ensures OneAtATime(RequestLoop(s, peer, availability, maxActive, now, count).0)
    decreases maxActive - count
  {
    hide DownloadSafety.Ok, RequestNext, HasAll, OneAtATime;
    if count < maxActive {
      RequestNextOne(t, done, s, peer, availability, now, sha1);
      RequestNextKeeps(t, done, s, peer, availability, now, sha1);
      var (next, outcome) := RequestNext(s, peer, availability, now);
      if outcome.Sent? { RequestLoopOne(t, done, next, peer, availability, maxActive, now, count + 1, sha1); }
    }
  }

  lemma {:induction false} RequestAllOne(t: Torrent, done: set<nat>, s: State, peers: seq<Peer>, availability: seq<int>,
                                         maxActive: nat, now: int, sha1: bytes -> bytes)
    requires DownloadSafety.Ok(t, done, s, sha1) && OneAtATime(s) && forall p <- peers :: HasAll(p, |s.pieces|)
    ensures OneAtATime(RequestAll(s, peers, availability, maxActive, now))
    decreases |peers|
  {
    hide DownloadSafety.Ok, RequestLoop, HasAll, OneAtATime;
    if peers != [] {
      var count := CountMatching(s.pending, OfPeer(peers[0].key));
      assert peers[0] in peers && forall p <- peers[1..] :: p in peers;
      RequestLoopOne(t, done, s, peers[0], availability, maxActive, now, count, sha1);
      RequestLoopKeeps(t, done, s, peers[0], availability, maxActive, now, count, sha1);
      var (next, outcome) := RequestForPeer(s, peers[0], availability, maxActive, now);
      if !outcome.Threw? { RequestAllOne(t, done, next, peers[1..], availability, maxActive, now, sha1); }
    }
  }

  lemma {:induction false} DropShortens(es: seq<Pending>, q: Query)
    ensures |Drop(es, q)| <= |es|
  {
    if es != [] { DropShortens(es[..|es| - 1], q); }
  }

  lemma {:induction false} WithoutShortens(s: seq<nat>, x: nat)
    ensures |Without(s, x)| <= |s|
  {
    if s != [] { WithoutShortens(s[..|s| - 1], x); }
  }

  lemma StepOne(t: Torrent, done: set<nat>, s: State, op: Op, maxActive: nat, sha1: bytes -> bytes)
    requires DownloadSafety.Ok(t, done, s, sha1) && OneAtATime(s) && AsksSeeds(op, |s.pieces|)
    ensures OneAtATime(Step(s, op, maxActive, sha1))
  {
    hide DownloadSafety.Ok, RequestAll, HasAll, Drop, Without, BlockAdded, Verified, Cleared, Has;
    hide SelectionDone, UnmarkAll;
    match op
    case OpRequest(peers, availability, now) => RequestAllOne(t, done, s, peers, availability, maxActive, now, sha1);
    case OpResume(peers, availability, now) =>
      SameButPaused(t, done, s, sha1);
      RequestAllOne(t, done, s.(isPaused := false), peers, availability, maxActive, now, sha1);
    case OpPiece(index, begin, data) => PieceShortens(s, index, begin, data, sha1);
    case OpGiveUp(q) => DropShortens(s.pending, q);
    case _ =>
  }

  lemma PieceShortens(s: State, index: int, begin: int, data: bytes, sha1: bytes -> bytes)
    ensures var u := HandlePiece(s, index, begin, data, sha1); |u.active| <= |s.active| && |u.pending| <= |s.pending|
  {
    hide Drop, Without, BlockAdded, Verified, Cleared, Has;
    if 0 <= index < |s.pieces| {
      DropShortens(s.pending, AtBlock(index, begin));
      DropShortens(Drop(s.pending, AtBlock(index, begin)), OfPiece(index));
      WithoutShortens(s.active, index);
    }
  }

  /**
   In every run in which no asked peer's bitfield lacks a piece, at most one piece is active and at most one block under
   way, with all peers together and whatever `maxActive` is: the one outstanding block stops every further request.
   */
  lemma {:induction false} OneOutstanding(t: Torrent, done: set<nat>, ops: seq<Op>, maxActive: nat,
                                          sha1: bytes -> bytes)
    requires TorrentOk(t) && (forall i <- done :: i < |t.hashes|) && forall op <- ops :: AsksSeeds(op, |t.hashes|)
    ensures OneAtATime(Run(t, done, ops, maxActive, sha1))
  {
    if ops != [] {
      hide Step, DownloadSafety.Ok, OneAtATime, AsksSeeds;
      var front, op := ops[..|ops| - 1], ops[|ops| - 1];
      assert op in ops && forall o <- front :: o in ops;
      OneOutstanding(t, done, front, maxActive, sha1);
      EveryRunOk(t, done, front, maxActive, sha1);
      PieceTotal(t, done, Run(t, done, front, maxActive, sha1), sha1);
      StepOne(t, done, Run(t, done, front, maxActive, sha1), op, maxActive, sha1);
    } else {
      RunNothing(t, done, maxActive, sha1);
    }
  }

  // ---------------------------------------------------------------- pieces a peer does not have

  /** The peer has sent a bitfield in which the piece is missing. */
  predicate Lacks(peer: Peer, i: nat) {
    peer.bitfield.Some? && !HasPiece(peer.bitfield.value, i)
  }

  /**
   In every state of a run: a peer is sent a request for a piece it does not have exactly when it has none of the active
   pieces and not the rarest one that is wanted, for choosing a new piece does not look at its bitfield.
   */
  lemma AsksInVainIff(t: Torrent, done: set<nat>, s: State, peer: Peer, availability: seq<int>, now: int,
                      sha1: bytes -> bytes)
    requires DownloadSafety.Ok(t, done, s, sha1)
    ensures var (u, outcome) := RequestNext(s, peer, availability, now);
            var next := SelectNext(s, availability);
            (outcome.Sent? && u.pending != [] && Lacks(peer, u.pending[|u.pending| - 1].piece))
            <==> (peer.canSend && (forall a <- s.active :: Lacks(peer, a)) && next.Some? && Lacks(peer, next.value))
  {
    hide HasPiece, SelectNext, Has, MissingOf, PiecesGood, CompletedGood, PendingGood, BytesOf, DownloadSafety.Ok;
    FromActiveIs(s, peer, 0);
    NoneUsableIff(t, done, s, peer, 0, sha1);
    RarestFirst(s, availability);
    var next := SelectNext(s, availability);
    if next.Some? {
      IncompleteMisses(t, done, s, next.value, sha1);
      NotUnderWay(t, done, s, next.value, MissingOf(s.pieces, next.value).value.0, sha1);
    }
  }

  /** A peer with a bitfield can be asked for none of the active pieces exactly when it has none of them. */
  lemma {:induction false} NoneUsableIff(t: Torrent, done: set<nat>, s: State, peer: Peer, k: nat, sha1: bytes -> bytes)
    requires DownloadSafety.Ok(t, done, s, sha1) && k <= |s.active|
    ensures peer.bitfield.Some? ==>
              (FromActive(s, peer, k).NoPiece? <==> forall j :: k <= j < |s.active| ==> Lacks(peer, s.active[j]))
    decreases |s.active| - k
  {
    hide HasPiece, MissingOf, PiecesGood, CompletedGood, PendingGood, BytesOf;
    if k < |s.active| {
      assert s.active[k] in s.active;
      IncompleteMisses(t, done, s, s.active[k], sha1);
      NoneUsableIff(t, done, s, peer, k + 1, sha1);
    }
  }

  /** No block of a piece that is not active is under way. */
  lemma NotUnderWay(t: Torrent, done: set<nat>, s: State, i: nat, block: nat, sha1: bytes -> bytes)
    requires DownloadSafety.Ok(t, done, s, sha1) && i !in s.active
    ensures !Has(s.pending, AtBlock(i, block))
  {
    hide PiecesGood, CompletedGood, ActiveGood, BytesOf, MissingOf;
    forall k | 0 <= k < |s.pending| ensures s.pending[k].piece != i {
      assert RequestGood(s.pieces, s.active, s.pending[k]);
    }
  }

  /** A peer that has the second piece only. */
  const SECOND_ONLY: Peer := Peer("half", false, true, Some([0x40]), true)

  /** A run that does it: of two pieces the first is rarer, and is asked of a peer that only has the second. */
  lemma AskedInVain(h: bytes, sha1: bytes -> bytes)
    requires |h| == 20
    ensures var s := Run(TwoPieces(h), {}, [] + [OpStart] + [OpRequest([SECOND_ONLY], [1, 2], 0)], 1, sha1);
            s.pending == [Pending(0, 0, "half", 0)] && Lacks(SECOND_ONLY, 0)
  {
    var t := TwoPieces(h);
    TwoPiecesOk(h);
    RunNothing(t, {}, 1, sha1);
    RunSnoc(t, {}, [], OpStart, 1, sha1);
    RunSnoc(t, {}, [] + [OpStart], OpRequest([SECOND_ONLY], [1, 2], 0), 1, sha1);
    hide Run;
    var s := Run(t, {}, [] + [OpStart], 1, sha1);
    RarerFirst(s);
    FirstOfTwo(s);
  }

  lemma RarerFirst(s: State)
    requires |s.pieces| == 2 && s.active == [] && s.completed == {} && s.skipped == {}
    ensures SelectNext(s, [1, 2]) == Some(0)
  {
    RarestFirst(s, [1, 2]);
    assert Eligible(s, [1, 2], 0) && Eligible(s, [1, 2], 1);
  }

  lemma FirstOfTwo(s: State)
    requires FirstTile(s) && s.active == [] && s.pending == [] && s.isRunning && !s.isPaused
    requires SelectNext(s, [1, 2]) == Some(0)
    ensures RequestBlocks(s, [SECOND_ONLY], [1, 2], 1, 0).pending == [Pending(0, 0, "half", 0)]
  {
    hide SelectNext;
    var u := s.(active := [0], pending := [Pending(0, 0, "half", 0)]);
    assert FromActive(s, SECOND_ONLY, 0) == NoPiece;
    assert MissingOf(s.pieces, 0) == Some((0, 10));
    assert [] + [0] == [0] && [] + [Pending(0, 0, "half", 0)] == [Pending(0, 0, "half", 0)];
    assert RequestNext(s, SECOND_ONLY, [1, 2], 0) == (u, Sent);
    assert CountMatching([], OfPeer("half")) == 0;
    assert RequestLoop(u, SECOND_ONLY, [1, 2], 1, 0, 1) == (u, NotSent);
    assert RequestForPeer(s, SECOND_ONLY, [1, 2], 1, 0) == (u, NotSent);
    assert [SECOND_ONLY][1..] == [] && RequestAll(u, [], [1, 2], 1, 0) == u;
  }
}
