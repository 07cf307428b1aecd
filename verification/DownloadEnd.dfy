/** When a download is declared complete, and when a round of requests is cut short by an exception. */
module DownloadEnd {
  import opened Blocks
  import opened Bytes
  import opened Downloads
  import opened DownloadSafety
  import opened Sorting

  // ---------------------------------------------------------------- declaring completion

  predicate AllCompleted(s: State) {
    forall i: nat :: i < |s.pieces| ==> i in s.completed
  }

  /**
   The operation declares the download complete: a write that returns when all pieces are there, or a new selection
   that is.
   */
  predicate Declares(s: State, op: Op) {
    match op
    case OpAfterWrite => s.writing > 0 && AllCompleted(s)
    case OpSetSkipped(pieces) => SelectionDone(s.(skipped := pieces))
    case _ => false
  }

  lemma DeclaredStep(t: Torrent, done: set<nat>, s: State, op: Op, maxActive: nat, sha1: bytes -> bytes)
    requires DownloadSafety.Ok(t, done, s, sha1)
    ensures Step(s, op, maxActive, sha1).isComplete <==> s.isComplete || Declares(s, op)
  {
    hide RequestAll, HandlePiece, GiveUp, PiecesGood, ActiveGood, PendingGood, BytesOf;
    match op
    case OpRequest(peers, availability, now) => RequestAllFlag(s, peers, availability, maxActive, now);
    case OpResume(peers, availability, now) =>
      RequestAllFlag(s.(isPaused := false), peers, availability, maxActive, now);
    case OpPiece(index, begin, data) => PieceFlag(s, index, begin, data, sha1);
    case OpGiveUp(q) => GiveUpIs(t, done, s, q, sha1);
    case OpAfterWrite => FullSet(s.completed, |s.pieces|);
    case _ =>
  }

  lemma PieceFlag(s: State, index: int, begin: int, data: bytes, sha1: bytes -> bytes)
    ensures HandlePiece(s, index, begin, data, sha1).isComplete == s.isComplete
  {
    hide Has, Drop, BlockAdded, Verified;
  }

  lemma {:induction false} RequestLoopFlag(s: State, peer: Peer, availability: seq<int>, maxActive: nat, now: int,
                                           count: nat)
    ensures RequestLoop(s, peer, availability, maxActive, now, count).0.isComplete == s.isComplete
    decreases maxActive - count
  {
    hide SelectForPeer, Has;
    if count < maxActive {
      var (next, outcome) := RequestNext(s, peer, availability, now);
      if outcome.Sent? { RequestLoopFlag(next, peer, availability, maxActive, now, count + 1); }
    }
  }

  lemma {:induction false} RequestAllFlag(s: State, peers: seq<Peer>, availability: seq<int>, maxActive: nat, now: int)
    ensures RequestAll(s, peers, availability, maxActive, now).isComplete == s.isComplete
    decreases |peers|
  {
    hide RequestLoop;
    if peers != [] {
      RequestLoopFlag(s, peers[0], availability, maxActive, now, CountMatching(s.pending, OfPeer(peers[0].key)));
      var (next, outcome) := RequestForPeer(s, peers[0], availability, maxActive, now);
      if !outcome.Threw? { RequestAllFlag(next, peers[1..], availability, maxActive, now); }
    }
  }

  /** Some operation of the run declares the download complete. */
  ghost predicate DeclaredIn(t: Torrent, done: set<nat>, ops: seq<Op>, maxActive: nat, sha1: bytes -> bytes) {
    exists k :: 0 <= k < |ops| && Declares(Run(t, done, ops[..k], maxActive, sha1), ops[k])
  }

  lemma DeclaredSnoc(t: Torrent, done: set<nat>, front: seq<Op>, op: Op, maxActive: nat, sha1: bytes -> bytes)
    ensures DeclaredIn(t, done, front + [op], maxActive, sha1)
       <==> DeclaredIn(t, done, front, maxActive, sha1) || Declares(Run(t, done, front, maxActive, sha1), op)
  {
    hide Declares, Run;
    var ops := front + [op];
    assert ops[..|front|] == front && ops[|front|] == op;
    assert forall k :: 0 <= k < |front| ==> ops[..k] == front[..k] && ops[k] == front[k];
  }

  /**
   In every run the download counts as complete exactly when, at some moment, a write returned with all pieces
   completed, or a selection was set all of whose pieces were.
   */
  lemma {:induction false} CompleteIff(t: Torrent, done: set<nat>, ops: seq<Op>, maxActive: nat, sha1: bytes -> bytes)
    requires TorrentOk(t) && forall i <- done :: i < |t.hashes|
    ensures Run(t, done, ops, maxActive, sha1).isComplete <==> DeclaredIn(t, done, ops, maxActive, sha1)
  {
    if ops != [] {
      hide Step, DownloadSafety.Ok, Declares, Run, DeclaredIn;
      var front, op := ops[..|ops| - 1], ops[|ops| - 1];
      assert ops == front + [op];
      CompleteIff(t, done, front, maxActive, sha1);
      EveryRunOk(t, done, front, maxActive, sha1);
      RunSnoc(t, done, front, op, maxActive, sha1);
      DeclaredSnoc(t, done, front, op, maxActive, sha1);
      DeclaredStep(t, done, Run(t, done, front, maxActive, sha1), op, maxActive, sha1);
    }
  }

  /**
   When a write returns and every selected piece is completed, this is declared exactly when the deselected pieces are
   completed as well: only setting a selection checks the selection alone.
   */
  lemma SelectionDeclaredIff(t: Torrent, done: set<nat>, s: State, sha1: bytes -> bytes)
    requires DownloadSafety.Ok(t, done, s, sha1) && s.writing > 0 && SelectionDone(s) && !s.isComplete
    ensures AfterWrite(s).isComplete <==> forall i: nat :: i < |s.pieces| && i in s.skipped ==> i in s.completed
  {
    hide PiecesGood, ActiveGood, PendingGood, BytesOf;
    FullSet(s.completed, |s.pieces|);
  }

  /** As long as no selection is set, nothing is declared while any piece is missing, selected or not. */
  lemma {:induction false} NothingDeclaredWhileMissing(t: Torrent, done: set<nat>, before: seq<Op>, later: seq<Op>,
                                                       i: nat, maxActive: nat, sha1: bytes -> bytes)
    requires TorrentOk(t) && forall k <- done :: k < |t.hashes|
    requires i < |t.hashes| && i !in Run(t, done, before + later, maxActive, sha1).completed
    requires forall k :: 0 <= k < |later| ==> !later[k].OpSetSkipped?
    ensures Run(t, done, before + later, maxActive, sha1).isComplete == Run(t, done, before, maxActive, sha1).isComplete
    decreases |later|
  {
    if later == [] {
      assert before + later == before;
    } else {
      hide Step, DownloadSafety.Ok, Run;
      var front, op := later[..|later| - 1], later[|later| - 1];
      assert before + later == (before + front) + [op];
      RunSnoc(t, done, before + front, op, maxActive, sha1);
      var s := Run(t, done, before + front, maxActive, sha1);
      EveryRunOk(t, done, before + front, maxActive, sha1);
      PieceTotal(t, done, s, sha1);
      if i in s.completed { CompletedStep(t, done, s, op, maxActive, sha1, i); }
      NothingDeclaredWhileMissing(t, done, before, front, i, maxActive, sha1);
      DeclaredStep(t, done, s, op, maxActive, sha1);
    }
  }

  lemma PieceTotal(t: Torrent, done: set<nat>, s: State, sha1: bytes -> bytes)
    requires DownloadSafety.Ok(t, done, s, sha1)
    ensures |s.pieces| == |t.hashes|
  {
  }

  lemma RunSnoc(t: Torrent, done: set<nat>, ops: seq<Op>, op: Op, maxActive: nat, sha1: bytes -> bytes)
    ensures Run(t, done, ops + [op], maxActive, sha1) == Step(Run(t, done, ops, maxActive, sha1), op, maxActive, sha1)
  {
    assert (ops + [op])[..|ops|] == ops;
  }

  // ---------------------------------------------------------------- two runs

  /** Two pieces of ten bytes. */
  function TwoPieces(h: bytes): Torrent {
    Torrent([h, h], 10, 20)
  }

  lemma TwoPiecesOk(h: bytes)
    requires |h| == 20
    ensures TorrentOk(TwoPieces(h)) && LengthOf(TwoPieces(h), 0) == 10 && LengthOf(TwoPieces(h), 1) == 10
    ensures FreshPieces(TwoPieces(h), 2) == [FreshPiece(TwoPieces(h), 0), FreshPiece(TwoPieces(h), 1)]
    ensures FreshPiece(TwoPieces(h), 0).blocks == [Block(0, 10, [], false)]
  {
    assert Tiles(10, 10, BLOCK_SIZE) == [];
    assert Tiles(0, 10, BLOCK_SIZE) == [Block(0, 10, [], false)];
  }

  /** With the one missing piece deselected the download is complete before all its bytes are there. */
  lemma CompleteBeforeAllBytes(h: bytes, maxActive: nat, sha1: bytes -> bytes)
    requires |h| == 20
    ensures var s := Run(TwoPieces(h), {0}, [] + [OpSetSkipped({1})], maxActive, sha1);
            s.isComplete && s.downloaded == 10 < TwoPieces(h).length
  {
    var t := TwoPieces(h);
    TwoPiecesOk(h);
    RunSnoc(t, {0}, [], OpSetSkipped({1}), maxActive, sha1);
    assert Run(t, {0}, [], maxActive, sha1) == Init(t, {0});
    assert BytesOf(t, {0}, 2) == BytesOf(t, {0}, 1) == 10;
    var s := Init(t, {0}).(skipped := {1});
    assert |s.pieces| == 2 && 0 !in s.skipped && 0 in s.completed;
    var i: nat := 0;
    assert i < |s.pieces| && i !in s.skipped;
    assert SelectionDone(s);
  }

  /** A peer that has both pieces. */
  const SEED: Peer := Peer("seed", false, true, Some([0xc0]), true)

  predicate FirstTile(s: State) {
    |s.pieces| == 2 && s.pieces[0].blocks == [Block(0, 10, [], false)]
  }

  lemma OnlyFirst(s: State)
    requires |s.pieces| == 2 && s.active == [] && s.completed == {} && s.skipped == {1}
    ensures SelectNext(s, [1, 1]) == Some(0)
  {
    assert Needed(s, [1, 1], 0) == [];
    assert Needed(s, [1, 1], 1) == [] + [0];
    assert !Eligible(s, [1, 1], 1);
    assert Needed(s, [1, 1], 2) == [0];
    SortHeadOfOne([1, 1]);
  }

  lemma SendsFirst(s: State)
    requires FirstTile(s) && s.active == [] && s.pending == [] && s.completed == {} && s.skipped == {1}
    ensures RequestNext(s, SEED, [1, 1], 0) == (s.(active := [0], pending := [Pending(0, 0, "seed", 0)]), Sent)
  {
    OnlyFirst(s);
    hide SelectNext;
    assert FromActive(s, SEED, 0) == NoPiece;
    assert MissingOf(s.pieces, 0) == Some((0, 10));
    assert [] + [0] == [0] && [] + [Pending(0, 0, "seed", 0)] == [Pending(0, 0, "seed", 0)];
  }

  lemma SendsNoMore(s: State)
    requires FirstTile(s) && s.active == [0] && s.pending == [Pending(0, 0, "seed", 0)]
    ensures RequestNext(s, SEED, [1, 1], 0) == (s, NotSent)
  {
    assert MissingOf(s.pieces, 0) == Some((0, 10));
    assert HasPiece([0xc0], 0);
    assert FromActive(s, SEED, 0) == Chosen(0);
    assert Matches(s.pending[0], AtBlock(0, 0));
    assert Has(s.pending, AtBlock(0, 0));
  }

  lemma FirstRequest(s: State)
    requires FirstTile(s) && s.active == [] && s.pending == [] && s.completed == {} && s.skipped == {1}
    requires s.isRunning && !s.isPaused
    ensures RequestBlocks(s, [SEED], [1, 1], 5, 0) == s.(active := [0], pending := [Pending(0, 0, "seed", 0)])
  {
    hide RequestNext;
    var u := s.(active := [0], pending := [Pending(0, 0, "seed", 0)]);
    SendsFirst(s);
    SendsNoMore(u);
    assert RequestLoop(u, SEED, [1, 1], 5, 0, 1) == (u, NotSent);
    assert CountMatching([], OfPeer("seed")) == 0;
    assert RequestForPeer(s, SEED, [1, 1], 5, 0) == (u, NotSent);
    assert [SEED][1..] == [] && RequestAll(u, [], [1, 1], 5, 0) == u;
  }

  lemma SortHeadOfOne(availability: seq<int>)
    ensures Sort<nat>([0], Rarer(availability)) == [0]
  {
    assert [0][..0] == [];
    assert Sort<nat>([], Rarer(availability)) == [];
  }

  /** The first piece of a torrent of two arrives whole. */
  lemma FirstPiece(s: State, data: bytes, sha1: bytes -> bytes)
    requires |s.pieces| == 2 && s.pieces[0].blocks == [Block(0, 10, [], false)] && |data| == 10 == s.pieces[0].length
    requires sha1(data) == s.pieces[0].hash && s.active == [0] && s.pending == [Pending(0, 0, "seed", 0)]
    ensures var u := HandlePiece(s, 0, 0, data, sha1);
            && u.completed == s.completed + {0} && u.writing == s.writing + 1 && |u.pieces| == 2
            && u.skipped == s.skipped && u.isComplete == s.isComplete
  {
    assert Matches(s.pending[0], AtBlock(0, 0));
    assert Has(s.pending, AtBlock(0, 0));
    var p := s.pieces[0];
    assert FindOffset(p.blocks, 0) == 0;
    var bs := Stored(p.blocks, 0, data);
    assert bs == [Block(0, 10, data, true)];
    assert Datas(bs[1..]) == [] && Flatten(Datas(bs)) == data;
    assert data[..10] == data;
    assert Assemble(bs, p.length) == data;
  }

  /**
   A run that ends with every selected piece downloaded, verified and written, and is not declared complete: piece 1 is
   deselected, piece 0 requested, received and written.
   */
  lemma SelectionNeverDeclared(data: bytes, sha1: bytes -> bytes)
    requires |data| == 10 && |sha1(data)| == 20
    ensures var ops := [] + [OpSetSkipped({1})] + [OpStart] + [OpRequest([SEED], [1, 1], 0)] + [OpPiece(0, 0, data)]
                       + [OpAfterWrite];
            var s := Run(TwoPieces(sha1(data)), {}, ops, 5, sha1);
            SelectionDone(s) && s.writing == 0 && !s.isComplete
  {
    hide Run, RequestBlocks, HandlePiece;
    var t := TwoPieces(sha1(data));
    TwoPiecesOk(sha1(data));
    var o1 := [] + [OpSetSkipped({1})];
    var o2 := o1 + [OpStart];
    var o3 := o2 + [OpRequest([SEED], [1, 1], 0)];
    var o4 := o3 + [OpPiece(0, 0, data)];
    RunSnoc(t, {}, [], OpSetSkipped({1}), 5, sha1);
    RunSnoc(t, {}, o1, OpStart, 5, sha1);
    RunSnoc(t, {}, o2, OpRequest([SEED], [1, 1], 0), 5, sha1);
    RunSnoc(t, {}, o3, OpPiece(0, 0, data), 5, sha1);
    RunSnoc(t, {}, o4, OpAfterWrite, 5, sha1);
    RunNothing(t, {}, 5, sha1);
    var s0 := Init(t, {});
    assert 0 !in {1} && 0 !in s0.completed;
    var s1 := Run(t, {}, o1, 5, sha1);
    assert s1 == s0.(skipped := {1}) by {
      var i: nat := 0;
      assert i < |s0.(skipped := {1}).pieces| && i !in {1} && i !in s0.completed;
    }
    var s2 := Run(t, {}, o2, 5, sha1);
    FirstRequest(s2);
    var s3 := Run(t, {}, o3, 5, sha1);
    FirstPiece(s3, data, sha1);
    var s4 := Run(t, {}, o4, 5, sha1);
    assert s4.completed == {0} && |s4.completed| == 1;
    var s5 := Run(t, {}, o4 + [OpAfterWrite], 5, sha1);
    var i: nat := 0;
    assert i < |s5.pieces| && i !in s5.skipped;
  }

  lemma RunNothing(t: Torrent, done: set<nat>, maxActive: nat, sha1: bytes -> bytes)
    ensures Run(t, done, [], maxActive, sha1) == Init(t, done)
  {
  }

  // ---------------------------------------------------------------- peers without a bitfield

  /** The manager would ask this peer for something. */
  predicate Asks(s: State, peer: Peer, maxActive: nat) {
    !peer.choking && peer.handshakeComplete && CountMatching(s.pending, OfPeer(peer.key)) < maxActive
  }

  /** A first request to the peer activates a new piece and is sent, and a second one is allowed. */
  predicate StartsPiece(s: State, peer: Peer, availability: seq<int>, maxActive: nat) {
    && s.active == [] && peer.canSend && CountMatching(s.pending, OfPeer(peer.key)) + 1 < maxActive
    && var next := SelectNext(s, availability);
    && next.Some? && MissingOf(s.pieces, next.value).Some?
    && !Has(s.pending, AtBlock(next.value, MissingOf(s.pieces, next.value).value.0))
  }

  lemma ThrowsAtOnce(s: State, peer: Peer, availability: seq<int>, maxActive: nat, now: int, count: nat)
    requires peer.bitfield.None? && s.active != []
    ensures RequestLoop(s, peer, availability, maxActive, now, count)
         == (s, if count < maxActive then Threw else NotSent)
  {
    assert FromActive(s, peer, 0) == NoBitfield;
  }

  lemma {:induction false} LoopThrowsNot(s: State, peer: Peer, availability: seq<int>, maxActive: nat, now: int,
                                         count: nat)
    requires peer.bitfield.Some?
    ensures !RequestLoop(s, peer, availability, maxActive, now, count).1.Threw?
    decreases maxActive - count
  {
    if count < maxActive {
      FromActiveIs(s, peer, 0);
      var (next, outcome) := RequestNext(s, peer, availability, now);
      if outcome.Sent? { LoopThrowsNot(next, peer, availability, maxActive, now, count + 1); }
    }
  }

  /**
   In every state, a round of requests throws at a peer exactly when the peer is asked, has sent no bitfield, and a
   piece is active or becomes active by the first request to it.
   */
  lemma NoBitfieldThrowsIff(s: State, peer: Peer, availability: seq<int>, maxActive: nat, now: int)
    ensures RequestForPeer(s, peer, availability, maxActive, now).1.Threw?
       <==> Asks(s, peer, maxActive) && peer.bitfield.None?
            && (s.active != [] || StartsPiece(s, peer, availability, maxActive))
  {
    hide SelectNext, Has, CountMatching;
    if Asks(s, peer, maxActive) {
      var count := CountMatching(s.pending, OfPeer(peer.key));
      if peer.bitfield.Some? {
        LoopThrowsNot(s, peer, availability, maxActive, now, count);
      } else if s.active != [] {
        ThrowsAtOnce(s, peer, availability, maxActive, now, count);
      } else {
        var (next, outcome) := RequestNext(s, peer, availability, now);
        if outcome.Sent? { ThrowsAtOnce(next, peer, availability, maxActive, now, count + 1); }
      }
    }
  }

  /** Once it has thrown, the round is over: whatever peers stand behind, nothing more is asked of anyone. */
  lemma RestNotAsked(s: State, peer: Peer, rest: seq<Peer>, availability: seq<int>, maxActive: nat, now: int)
    requires RequestForPeer(s, peer, availability, maxActive, now).1.Threw?
    ensures RequestAll(s, [peer] + rest, availability, maxActive, now)
         == RequestForPeer(s, peer, availability, maxActive, now).0
    ensures forall e :: e in RequestAll(s, [peer] + rest, availability, maxActive, now).pending ==>
              e in s.pending || e.peer == peer.key
  {
    hide SelectForPeer, Has, CountMatching, MissingOf;
    NewRequestsOf(s, peer, availability, maxActive, now, CountMatching(s.pending, OfPeer(peer.key)));
  }

  lemma {:induction false} NewRequestsOf(s: State, peer: Peer, availability: seq<int>, maxActive: nat, now: int,
                                         count: nat)
    ensures forall e :: e in RequestLoop(s, peer, availability, maxActive, now, count).0.pending ==>
              e in s.pending || e.peer == peer.key
    decreases maxActive - count
  {
    hide SelectForPeer, Has, MissingOf;
    if count < maxActive {
      var (next, outcome) := RequestNext(s, peer, availability, now);
      if outcome.Sent? { NewRequestsOf(next, peer, availability, maxActive, now, count + 1); }
    }
  }

  /**
   Any download can come to it: started with nothing on the disk, it throws at a first peer that has sent no bitfield.
   */
  lemma FirstRoundThrows(t: Torrent, peer: Peer, availability: seq<int>, maxActive: nat, now: int, sha1: bytes -> bytes)
    requires TorrentOk(t) && |t.hashes| > 0 && maxActive >= 2 && Availability(availability, 0) > 0
    requires !peer.choking && peer.handshakeComplete && peer.canSend && peer.bitfield.None?
    ensures var s := Run(t, {}, [] + [OpStart], maxActive, sha1);
            s.isRunning && !s.isPaused && RequestForPeer(s, peer, availability, maxActive, now).1.Threw?
  {
    hide SelectNext, Run;
    RunNothing(t, {}, maxActive, sha1);
    RunSnoc(t, {}, [], OpStart, maxActive, sha1);
    var s := Run(t, {}, [] + [OpStart], maxActive, sha1);
    RarestFirst(s, availability);
    assert Eligible(s, availability, 0);
    var i := SelectNext(s, availability).value;
    LengthPositive(t, i);
    FreshOk(i, LengthOf(t, i), t.hashes[i], BLOCK_SIZE);
    NoBitfieldThrowsIff(s, peer, availability, maxActive, now);
  }
}
