/** The download manager as an object over lazily created `Piece` objects; every method is one step of its model. */
module DownloadManager {
  import opened Blocks
  import opened Bytes
  import opened DownloadSafety
  import opened Downloads
  import opened Sorting

  /** A piece that was never asked for counts as fresh. */
  function ViewOf(t: Torrent, i: nat, p: Piece?): PieceState
    reads p
  {
    if p == null then FreshPiece(t, i) else p.View()
  }

  function ViewsOf(t: Torrent, ps: seq<Piece?>): (r: seq<PieceState>)
    reads ps
    ensures |r| == |ps|
    ensures forall i :: 0 <= i < |ps| ==> r[i] == ViewOf(t, i, ps[i])
  {
    seq(|ps|, i requires 0 <= i < |ps| reads ps => ViewOf(t, i, ps[i]))
  }

  /** handlePieceMessage as taking the block and then, if the piece is complete, checking it. */
  lemma HandledIs(s: State, index: int, begin: int, data: bytes, sha1: bytes -> bytes, r: State)
    requires 0 <= index < |s.pieces| && Has(s.pending, AtBlock(index, begin))
    requires var (p, added) := BlockAdded(s.pieces[index], begin, data);
             var took := s.(pending := Drop(s.pending, AtBlock(index, begin)), pieces := s.pieces[index := p]);
             var v := Verified(p, sha1);
             r == if !(added.Ok? && added.value) then took
                  else if v.isVerified then PieceDone(took, index, v)
                  else PieceFailed(took, index, v)
    ensures r == HandlePiece(s, index, begin, data, sha1)
  {
    hide BlockAdded, Verified, Drop, Has;
    var p := BlockAdded(s.pieces[index], begin, data).0;
    var v := Verified(p, sha1);
    assert s.pieces[index := p][index := v] == s.pieces[index := v];
    assert s.pieces[index := p][index := Cleared(v)] == s.pieces[index := Cleared(v)];
  }

  lemma GiveUpStart(ps: seq<PieceState>, es: seq<Pending>, q: Query)
    ensures Drop(es[..0], q) == [] && UnmarkAll(ps, es[..0], q) == ps
  {
  }

  /** One more request looked at. */
  lemma GiveUpStep(ps: seq<PieceState>, es: seq<Pending>, k: nat, q: Query)
    requires k < |es|
    ensures Drop(es[..k + 1], q) == if Matches(es[k], q) then Drop(es[..k], q) else Drop(es[..k], q) + [es[k]]
    ensures var before := UnmarkAll(ps, es[..k], q);
            UnmarkAll(ps, es[..k + 1], q) == if Matches(es[k], q) then UnmarkOne(before, es[k]) else before
  {
    assert es[..k + 1][..k] == es[..k];
  }

  class DownloadManager {
    const torrent: Torrent
    const maxActiveRequests: nat
    /** Null until the piece is first needed. */
    var pieces: seq<Piece?>
    /** The keys of the map of active pieces, in insertion order. */
    var activePieces: seq<nat>
    var completedPieces: set<nat>
    var pendingRequests: seq<Pending>
    var downloadedBytes: nat
    /** Verified pieces whose write has not returned yet. */
    var writing: nat
    var skippedPieces: set<nat>
    var isComplete: bool
    var isPaused: bool
    var isRunning: bool

    ghost predicate Valid()
      reads this
    {
      && TorrentOk(torrent) && |pieces| == |torrent.hashes|
      && (forall i, j :: 0 <= i < j < |pieces| && pieces[i] != null ==> pieces[i] != pieces[j])
      && (forall i :: 0 <= i < |pieces| && pieces[i] != null ==> pieces[i].blockSize == BLOCK_SIZE)
      && (forall a :: a in activePieces ==> a < |pieces| && pieces[a] != null)
    }

    function PieceViews(): seq<PieceState>
      reads this, pieces
    {
      ViewsOf(torrent, pieces)
    }

    function View(): State
      reads this, pieces
    {
      State(PieceViews(), activePieces, completedPieces, pendingRequests, downloadedBytes, writing, skippedPieces,
            isComplete, isPaused, isRunning)
    }

    /** A manager that finds the pieces `done` on the disk. */
    constructor (torrent: Torrent, maxActiveRequests: nat, done: set<nat>, doneBytes: nat)
      requires TorrentOk(torrent) && doneBytes == BytesOf(torrent, done, |torrent.hashes|)
      ensures Valid() && this.torrent == torrent
      ensures this.maxActiveRequests == (if maxActiveRequests == 0 then 5 else maxActiveRequests)
      ensures View() == Init(torrent, done)
    {
      this.torrent := torrent;
      this.maxActiveRequests := if maxActiveRequests == 0 then 5 else maxActiveRequests;
      pieces := seq(|torrent.hashes|, i => null);
      activePieces, completedPieces, pendingRequests, downloadedBytes := [], done, [], doneBytes;
      writing, skippedPieces := 0, {};
      isComplete, isPaused, isRunning := false, false, false;
      new;
      assert PieceViews() == FreshPieces(torrent, |torrent.hashes|);
    }

    method NewPiece(i: nat) returns (piece: Piece)
      requires Valid() && i < |pieces|
      ensures fresh(piece) && piece.View() == FreshPiece(torrent, i) && piece.blockSize == BLOCK_SIZE
    {
      var isLastPiece := i == |torrent.hashes| - 1;
      var length := if isLastPiece then torrent.length - i * torrent.pieceLength else torrent.pieceLength;
      assert length > 0 && length == LengthOf(torrent, i);
      piece := new Piece(i, length, torrent.hashes[i], 0);
    }

    /** getPieceByIndex, for an index in range: the piece is created when it is first asked for. */
    method GetPieceByIndex(i: nat) returns (piece: Piece)
      requires Valid() && i < |pieces|
      modifies this`pieces
      ensures Valid() && piece == pieces[i] && PieceViews() == old(PieceViews())
      ensures |pieces| == |old(pieces)|
      ensures forall j :: 0 <= j < |pieces| && (j != i || old(pieces)[j] != null) ==> pieces[j] == old(pieces)[j]
      ensures old(pieces)[i] == null ==> fresh(piece)
    {
      if pieces[i] == null {
        hide TorrentOk, FreshPiece;
        piece := NewPiece(i);
        pieces := pieces[i := piece];
        assert PieceViews() == old(PieceViews());
      } else {
        piece := pieces[i];
      }
    }

    method SelectNextPiece(availability: seq<int>) returns (r: Option<nat>)
      ensures r == SelectNext(View(), availability)
    {
      var needed: seq<nat> := [];
      for i := 0 to |pieces|
        invariant needed == Needed(View(), availability, i)
      {
        if i !in skippedPieces && i !in completedPieces && i !in activePieces {
          if i < |availability| && availability[i] > 0 {
            needed := needed + [i];
          }
        }
      }
      if |needed| == 0 { return None; }
      needed := Sort(needed, Rarer(availability));
      r := Some(needed[0]);
    }

    method SelectPieceForPeer(peer: Peer, availability: seq<int>) returns (r: Choice)
      requires Valid()
      ensures r == SelectForPeer(View(), peer, availability)
    {
      for k := 0 to |activePieces|
        invariant FromActive(View(), peer, k) == FromActive(View(), peer, 0)
      {
        var index := activePieces[k];
        assert index in activePieces;
        if peer.bitfield.None? { return NoBitfield; }
        if HasPiece(peer.bitfield.value, index) {
          var nextBlock := pieces[index].GetNextMissingBlock();
          if nextBlock.Some? { return Chosen(index); }
        }
      }
      var next := SelectNextPiece(availability);
      r := if next.Some? then Chosen(next.value) else NoPiece;
    }

    /** Makes a piece active; `block` is the first one it misses. */
    method ActivatePiece(i: nat) returns (block: Option<(nat, nat)>)
      requires Valid() && i < |pieces|
      modifies this`pieces, this`activePieces
      ensures Valid() && View() == Activate(old(View()), i) && block == MissingOf(old(View()).pieces, i)
    {
      hide NextMissing, TorrentOk, ViewsOf;
      var piece := GetPieceByIndex(i);
      if i !in activePieces {
        activePieces := activePieces + [i];
      }
      assert PieceViews()[i] == piece.View();
      block := piece.GetNextMissingBlock();
    }

    method RequestNextBlockForPeer(peer: Peer, availability: seq<int>, now: int) returns (outcome: Outcome)
      requires Valid()
      modifies this`pieces, this`activePieces, this`pendingRequests
      ensures Valid() && (View(), outcome) == RequestNext(old(View()), peer, availability, now)
    {
      hide SelectForPeer, Has, MissingOf, Activate, TorrentOk, ViewsOf;
      var choice := SelectPieceForPeer(peer, availability);
      if choice.NoBitfield? { return Threw; }
      if choice.NoPiece? { return NotSent; }
      var pieceIndex := choice.piece;
      ChoiceInRange(peer, availability);
      var block := ActivatePiece(pieceIndex);
      if block.None? { return NotSent; }
      if Has(pendingRequests, AtBlock(pieceIndex, block.value.0)) { return NotSent; }
      if !peer.canSend { return NotSent; }
      pendingRequests := pendingRequests + [Pending(pieceIndex, block.value.0, peer.key, now)];
      outcome := Sent;
    }

    lemma ChoiceInRange(peer: Peer, availability: seq<int>)
      requires Valid()
      ensures var c := SelectForPeer(View(), peer, availability); c.Chosen? ==> c.piece < |pieces|
    {
      FromActiveIs(View(), peer, 0);
      RarestFirst(View(), availability);
    }

    method RequestBlocksForPeer(peer: Peer, availability: seq<int>, now: int) returns (outcome: Outcome)
      requires Valid()
      modifies this`pieces, this`activePieces, this`pendingRequests
      ensures Valid() && (View(), outcome) == RequestForPeer(old(View()), peer, availability, maxActiveRequests, now)
    {
      if peer.choking || !peer.handshakeComplete { return NotSent; }
      var count := CountMatching(pendingRequests, OfPeer(peer.key));
      ghost var end := RequestLoop(View(), peer, availability, maxActiveRequests, now, count);
      outcome := NotSent;
      while count < maxActiveRequests
        invariant Valid() && RequestLoop(View(), peer, availability, maxActiveRequests, now, count) == end
        modifies this`pieces, this`activePieces, this`pendingRequests
      {
        hide RequestNext;
        outcome := RequestNextBlockForPeer(peer, availability, now);
        if !outcome.Sent? { return; }
        count := count + 1;
      }
      outcome := NotSent;
    }

    method RequestAllPeers(peers: seq<Peer>, availability: seq<int>, now: int)
      requires Valid()
      modifies this`pieces, this`activePieces, this`pendingRequests
      ensures Valid() && View() == RequestAll(old(View()), peers, availability, maxActiveRequests, now)
    {
      ghost var end := RequestAll(View(), peers, availability, maxActiveRequests, now);
      assert peers[0..] == peers;
      for i := 0 to |peers|
        invariant Valid() && RequestAll(View(), peers[i..], availability, maxActiveRequests, now) == end
        modifies this`pieces, this`activePieces, this`pendingRequests
      {
        hide RequestForPeer;
        assert peers[i..][0] == peers[i] && peers[i..][1..] == peers[i + 1..];
        var outcome := RequestBlocksForPeer(peers[i], availability, now);
        if outcome.Threw? { return; }
      }
      assert peers[|peers|..] == [];
    }

    method RequestBlocks(peers: seq<Peer>, availability: seq<int>, now: int)
      requires Valid()
      modifies this`pieces, this`activePieces, this`pendingRequests
      ensures Valid() && View() == Downloads.RequestBlocks(old(View()), peers, availability, maxActiveRequests, now)
    {
      if isPaused || !isRunning { return; }
      RequestAllPeers(peers, availability, now);
    }

    /** The piece is verified; the completion check follows after the write. */
    method HandleVerifiedPiece(i: nat)
      requires Valid() && i < |pieces| && pieces[i] != null
      modifies this`completedPieces, this`activePieces, this`downloadedBytes, this`writing
      ensures Valid() && View() == PieceDone(old(View()), i, old(pieces[i].View()))
    {
      ghost var views := PieceViews();
      assert views == views[i := pieces[i].View()];
      hide TorrentOk, Without, ViewsOf;
      completedPieces := completedPieces + {i};
      downloadedBytes := downloadedBytes + pieces[i].length;
      writing := writing + 1;
      WithoutSubset(activePieces, i);
      activePieces := Without(activePieces, i);
    }

    method HandleFailedPiece(i: nat)
      requires Valid() && i < |pieces| && pieces[i] != null
      modifies this`activePieces, this`pendingRequests, pieces[i]
      ensures Valid() && View() == PieceFailed(old(View()), i, old(pieces[i].View()))
    {
      ghost var before := PieceViews();
      pieces[i].Reset();
      WithoutSubset(activePieces, i);
      activePieces := Without(activePieces, i);
      pendingRequests := Drop(pendingRequests, OfPiece(i));
      assert PieceViews() == before[i := pieces[i].View()];
    }

    /** A piece whose last block has come is checked. */
    method VerifyPiece(i: nat, sha1: bytes -> bytes)
      requires Valid() && i < |pieces| && pieces[i] != null && pieces[i].isComplete
      modifies this`completedPieces, this`activePieces, this`downloadedBytes, this`writing, this`pendingRequests
      modifies pieces[i]
      ensures Valid()
      ensures var v := Verified(old(pieces[i].View()), sha1);
              View() == if v.isVerified then PieceDone(old(View()), i, v) else PieceFailed(old(View()), i, v)
    {
      hide Drop, Without, Verified, TorrentOk, ViewsOf;
      ghost var before := PieceViews();
      var isValid := pieces[i].Verify(sha1);
      ghost var v := pieces[i].View();
      assert PieceViews() == before[i := v];
      if isValid {
        HandleVerifiedPiece(i);
        assert before[i := v][i := v] == before[i := v];
      } else {
        HandleFailedPiece(i);
        assert before[i := v][i := Cleared(v)] == before[i := Cleared(v)];
      }
    }

    /** The block goes into its piece; `complete` tells whether the piece now has all of them. */
    method TakeBlock(i: nat, begin: int, data: bytes) returns (complete: bool)
      requires Valid() && i < |pieces|
      modifies this`pieces, pieces[i]
      ensures Valid() && |pieces| == |old(pieces)| && pieces[i] != null && (old(pieces)[i] == null ==> fresh(pieces[i]))
      ensures old(pieces)[i] != null ==> pieces[i] == old(pieces)[i]
      ensures var (p, r) := BlockAdded(old(PieceViews())[i], begin, data);
              View() == old(View()).(pieces := old(PieceViews())[i := p]) && complete == (r.Ok? && r.value)
      ensures complete ==> pieces[i].isComplete
    {
      hide BlockAdded, TorrentOk;
      var piece := GetPieceByIndex(i);
      ghost var before := PieceViews();
      var added := piece.AddBlock(begin, data);
      assert PieceViews() == before[i := piece.View()];
      complete := added.Ok? && added.value;
      AddedComplete(before[i], begin, data);
    }

    method HandlePieceMessage(index: int, begin: int, data: bytes, sha1: bytes -> bytes)
      requires Valid()
      modifies this, pieces
      ensures Valid() && View() == HandlePiece(old(View()), index, begin, data, sha1)
    {
      if !(0 <= index < |pieces| && Has(pendingRequests, AtBlock(index, begin))) { return; }
      hide BlockAdded, Verified, Drop, TorrentOk, Has, ViewsOf, HandlePiece, PieceDone, PieceFailed;
      ghost var s := View();
      pendingRequests := Drop(pendingRequests, AtBlock(index, begin));
      assert View() == s.(pending := pendingRequests);
      var isComplete := TakeBlock(index, begin, data);
      if isComplete {
        VerifyPiece(index, sha1);
      }
      HandledIs(s, index, begin, data, sha1, View());
    }

    /** A write of a verified piece has returned. */
    method CheckAllPieces()
      requires Valid() && writing > 0
      modifies this`writing, this`isComplete, this`isRunning, this`isPaused
      ensures Valid() && View() == AfterWrite(old(View()))
    {
      writing := writing - 1;
      if |completedPieces| == |pieces| {
        isComplete := true;
        Stop();
      }
    }

    /** The loop of cancelPeerRequests and of handleRequestTimeout. */
    method GiveUpRequests(q: Query)
      requires Valid()
      modifies this`pieces, this`pendingRequests, pieces
      ensures Valid() && View() == GiveUp(old(View()), q)
    {
      hide Unmark, TorrentOk, ViewsOf, Matches, Drop, UnmarkAll;
      GiveUpStart(PieceViews(), pendingRequests, q);
      var kept: seq<Pending> := [];
      ghost var before := PieceViews();
      ghost var objects := pieces;
      for k := 0 to |pendingRequests|
        invariant Valid() && |pieces| == |objects| && pendingRequests == old(pendingRequests)
        invariant forall j :: 0 <= j < |pieces| ==> (pieces[j] == objects[j] || (pieces[j] != null && fresh(pieces[j])))
        invariant kept == Drop(pendingRequests[..k], q)
        invariant PieceViews() == UnmarkAll(before, pendingRequests[..k], q)
        modifies this`pieces, objects
      {
        var e := pendingRequests[k];
        GiveUpStep(before, pendingRequests, k, q);
        if Matches(e, q) {
          if e.piece < |pieces| { MarkMissing(e.piece, e.block); }
        } else {
          kept := kept + [e];
        }
      }
      assert pendingRequests[..|pendingRequests|] == pendingRequests;
      pendingRequests := kept;
    }

    method MarkMissing(i: nat, block: nat)
      requires Valid() && i < |pieces|
      modifies this`pieces, pieces[i]
      ensures Valid() && |pieces| == |old(pieces)|
      ensures forall j :: 0 <= j < |pieces| && (j != i || old(pieces)[j] != null) ==> pieces[j] == old(pieces)[j]
      ensures pieces[i] != null && (old(pieces)[i] == null ==> fresh(pieces[i]))
      ensures 0 < old(PieceViews())[i].blockSize
      ensures PieceViews() == old(PieceViews())[i := Unmark(old(PieceViews())[i], block)]
    {
      hide TorrentOk;
      var piece := GetPieceByIndex(i);
      ghost var before := PieceViews();
      piece.MarkMissing(block);
      assert PieceViews() == before[i := piece.View()];
    }

    method CancelPeerRequests(peerKey: string)
      requires Valid()
      modifies this`pieces, this`pendingRequests, pieces
      ensures Valid() && View() == GiveUp(old(View()), OfPeer(peerKey))
    {
      GiveUpRequests(OfPeer(peerKey));
    }

    method HandleRequestTimeout(now: int)
      requires Valid()
      modifies this`pieces, this`pendingRequests, pieces
      ensures Valid() && View() == GiveUp(old(View()), Older(now))
    {
      GiveUpRequests(Older(now));
    }

    method SetSkippedPieces(pieceIndices: set<nat>)
      requires Valid()
      modifies this`skippedPieces, this`isComplete
      ensures Valid() && View() == CheckCompletion(old(View()).(skipped := pieceIndices))
    {
      skippedPieces := pieceIndices;
      var neededPieces, completedNeeded := 0, 0;
      for i := 0 to |pieces|
        invariant 0 <= completedNeeded <= neededPieces
        invariant neededPieces > 0 <==> exists j: nat :: j < i && j !in skippedPieces
        invariant completedNeeded == neededPieces
           <==> forall j: nat :: j < i && j !in skippedPieces ==> j in completedPieces
      {
        if i !in skippedPieces {
          neededPieces := neededPieces + 1;
          if i in completedPieces {
            completedNeeded := completedNeeded + 1;
          }
        }
      }
      if neededPieces > 0 && completedNeeded == neededPieces && !isComplete {
        isComplete := true;
      }
    }

    method ClearSkippedPieces()
      modifies this`skippedPieces
      ensures View() == old(View()).(skipped := {})
    {
      skippedPieces := {};
    }

    method Start()
      modifies this`isRunning, this`isPaused
      ensures View() == if old(isRunning) then old(View()) else old(View()).(isRunning := true, isPaused := false)
    {
      if isRunning { return; }
      isRunning, isPaused := true, false;
    }

    method Pause()
      modifies this`isPaused
      ensures View() == old(View()).(isPaused := true)
    {
      isPaused := true;
    }

    method Resume(peers: seq<Peer>, availability: seq<int>, now: int)
      requires Valid()
      modifies this`isPaused, this`pieces, this`activePieces, this`pendingRequests
      ensures Valid()
      ensures View()
           == Downloads.RequestBlocks(old(View()).(isPaused := false), peers, availability, maxActiveRequests, now)
    {
      isPaused := false;
      RequestBlocks(peers, availability, now);
    }

    method Stop()
      modifies this`isRunning, this`isPaused
      ensures View() == old(View()).(isRunning := false, isPaused := true)
    {
      isRunning, isPaused := false, true;
    }
  }
}
