/** What every run of the download manager keeps, and what follows for its requests, pieces and byte counts. */
module DownloadSafety {
  import opened Arith
  import opened Blocks
  import opened Bytes
  import opened Downloads
  import opened Sorting

  // ---------------------------------------------------------------- the invariant

  /** The piece has the shape the torrent gives it; it is complete only if it is in `completed`. */
  predicate PieceGood(t: Torrent, i: nat, p: PieceState, completed: bool) {
    && PieceOk(p) && p.index == i && p.length == LengthOf(t, i) && p.blockSize == BLOCK_SIZE
    && p.hash == (if i < |t.hashes| then t.hashes[i] else [])
    && (!completed ==> !p.isComplete)
  }

  ghost predicate PiecesGood(t: Torrent, ps: seq<PieceState>, completed: set<nat>) {
    && |ps| == |t.hashes|
    && forall i: nat :: i < |ps| ==> PieceGood(t, i, ps[i], i in completed)
  }

  /** Downloaded in this run: assembled, and with the right hash. */
  predicate Secured(p: PieceState, sha1: bytes -> bytes) {
    p.isVerified && p.data.Some? && sha1(p.data.value) == p.hash
  }

  ghost predicate CompletedGood(ps: seq<PieceState>, completed: set<nat>, done: set<nat>, sha1: bytes -> bytes) {
    && done <= completed
    && forall i: nat :: i in completed ==> i < |ps| && (i !in done ==> Secured(ps[i], sha1))
  }

  /** Active pieces are different, exist, and are not completed. */
  ghost predicate ActiveGood(active: seq<nat>, count: nat, completed: set<nat>) {
    && (forall i, j :: 0 <= i < j < |active| ==> active[i] != active[j])
    && (forall a :: a in active ==> a < count && a !in completed)
  }

  /** The request is for the first missing block of an active piece. */
  predicate RequestGood(ps: seq<PieceState>, active: seq<nat>, e: Pending) {
    e.piece in active && MissingOf(ps, e.piece).Some? && MissingOf(ps, e.piece).value.0 == e.block
  }

  /** No two requests are for the same piece. */
  ghost predicate OnePerPiece(es: seq<Pending>) {
    forall i, j :: 0 <= i < j < |es| ==> es[i].piece != es[j].piece
  }

  ghost predicate PendingGood(ps: seq<PieceState>, active: seq<nat>, es: seq<Pending>) {
    && (forall k :: 0 <= k < |es| ==> RequestGood(ps, active, es[k]))
    && OnePerPiece(es)
  }

  ghost predicate Ok(t: Torrent, done: set<nat>, s: State, sha1: bytes -> bytes) {
    && PiecesGood(t, s.pieces, s.completed)
    && CompletedGood(s.pieces, s.completed, done, sha1)
    && ActiveGood(s.active, |s.pieces|, s.completed)
    && PendingGood(s.pieces, s.active, s.pending)
    && s.downloaded == BytesOf(t, s.completed, |t.hashes|)
  }

  // ---------------------------------------------------------------- lists

  lemma {:induction false} DropElements(es: seq<Pending>, q: Query, e: Pending)
    ensures e in Drop(es, q) <==> e in es && !Matches(e, q)
  {
    if es != [] {
      DropElements(es[..|es| - 1], q, e);
      assert es == es[..|es| - 1] + [es[|es| - 1]];
    }
  }

  lemma {:induction false} DropOnePerPiece(es: seq<Pending>, q: Query)
    requires OnePerPiece(es)
    ensures OnePerPiece(Drop(es, q))
  {
    if es != [] {
      var front, last := es[..|es| - 1], es[|es| - 1];
      DropOnePerPiece(front, q);
      forall k | 0 <= k < |Drop(front, q)| ensures Drop(front, q)[k].piece != last.piece {
        DropElements(front, q, Drop(front, q)[k]);
      }
    }
  }

  lemma {:induction false} WithoutElements(s: seq<nat>, x: nat, y: nat)
    ensures y in Without(s, x) <==> y in s && y != x
  {
    if s != [] {
      WithoutElements(s[..|s| - 1], x, y);
      assert s == s[..|s| - 1] + [s[|s| - 1]];
    }
  }

  lemma WithoutSubset(s: seq<nat>, x: nat)
    ensures forall y :: y in Without(s, x) <==> y in s && y != x
  {
    forall y: nat ensures y in Without(s, x) <==> y in s && y != x { WithoutElements(s, x, y); }
  }

  lemma {:induction false} WithoutDistinct(s: seq<nat>, x: nat)
    requires forall i, j :: 0 <= i < j < |s| ==> s[i] != s[j]
    ensures forall i, j :: 0 <= i < j < |Without(s, x)| ==> Without(s, x)[i] != Without(s, x)[j]
  {
    if s != [] {
      var front := s[..|s| - 1];
      WithoutDistinct(front, x);
      forall k | 0 <= k < |Without(front, x)| ensures Without(front, x)[k] != s[|s| - 1] {
        WithoutElements(front, x, Without(front, x)[k]);
      }
    }
  }

  // ---------------------------------------------------------------- choosing a piece

  lemma {:induction false} NeededAre(s: State, availability: seq<int>, n: nat)
    ensures forall i: nat :: i in Needed(s, availability, n) <==> i < n && Eligible(s, availability, i)
    ensures forall i, j :: 0 <= i < j < |Needed(s, availability, n)| ==>
              Needed(s, availability, n)[i] < Needed(s, availability, n)[j]
  {
    if n > 0 {
      NeededAre(s, availability, n - 1);
      var rest := Needed(s, availability, n - 1);
      forall i | 0 <= i < |rest| ensures rest[i] < n - 1 { assert rest[i] in rest; }
    }
  }

  lemma RarerIsOrder(availability: seq<int>)
    ensures WeakOrder(Rarer(availability))
  {
  }

  /** Element k is smallest, and the first of the smallest. */
  ghost predicate First<T>(s: seq<T>, k: nat, less: (T, T) -> bool) {
    && k < |s|
    && (forall i :: 0 <= i < |s| ==> !less(s[i], s[k]))
    && (forall i :: 0 <= i < k ==> less(s[k], s[i]))
  }

  lemma {:induction false} InsertHead<T(!new)>(s: seq<T>, x: T, less: (T, T) -> bool)
    requires WeakOrder(less) && Sorted(s, less)
    ensures Insert(s, x, less)[0] == if s == [] || less(x, s[0]) then x else s[0]
  {
    if s != [] {
      var n := |s| - 1;
      if less(x, s[n]) {
        InsertHead(s[..n], x, less);
        if n > 0 && less(x, s[0]) { assert s[..n][0] == s[0]; }
      } else if n > 0 {
        assert !less(s[n], s[0]);
      }
    }
  }

  lemma FirstExtends<T(!new)>(s: seq<T>, x: T, k: nat, less: (T, T) -> bool)
    requires WeakOrder(less) && First(s, k, less)
    ensures First(s + [x], if less(x, s[k]) then |s| else k, less)
  {
    if less(x, s[k]) {
      forall i | 0 <= i < |s| ensures less(x, s[i]) { assert !less(s[i], s[k]); }
    }
  }

  /** Sorting puts the first of the smallest elements at the head. */
  lemma {:induction false} SortHead<T(!new)>(s: seq<T>, less: (T, T) -> bool) returns (k: nat)
    requires WeakOrder(less) && s != []
    ensures First(s, k, less) && Sort(s, less)[0] == s[k]
  {
    var n := |s| - 1;
    var front, x := s[..n], s[n];
    assert s == front + [x];
    SortSorted(front, less);
    InsertHead(Sort(front, less), x, less);
    if n == 0 {
      k := 0;
    } else {
      k := SortHead(front, less);
      FirstExtends(front, x, k, less);
      hide First, WeakOrder;
      k := if less(x, front[k]) then n else k;
    }
  }

  /** A new piece is one that is wanted and available, of the lowest availability, and of these the first. */
  lemma RarestFirst(s: State, availability: seq<int>)
    ensures var r := SelectNext(s, availability);
            && (r.None? <==> forall i: nat :: i < |s.pieces| ==> !Eligible(s, availability, i))
            && (r.Some? ==>
                  && r.value < |s.pieces| && Eligible(s, availability, r.value)
                  && (forall i: nat :: i < |s.pieces| && Eligible(s, availability, i) ==>
                        Availability(availability, r.value) <= Availability(availability, i)
                        && (Availability(availability, r.value) == Availability(availability, i) ==> r.value <= i)))
  {
    hide Eligible, Sort;
    var n := |s.pieces|;
    var needed := Needed(s, availability, n);
    NeededAre(s, availability, n);
    if needed == [] {
      forall i: nat | i < n ensures !Eligible(s, availability, i) { assert i !in needed; }
    } else {
      RarerIsOrder(availability);
      var k := SortHead(needed, Rarer(availability));
      var x := needed[k];
      assert x in needed;
      forall i: nat | i < n && Eligible(s, availability, i)
        ensures Availability(availability, x) <= Availability(availability, i)
        ensures Availability(availability, x) == Availability(availability, i) ==> x <= i
      {
        assert i in needed;
        var j :| 0 <= j < |needed| && needed[j] == i;
        assert !Rarer(availability)(needed[j], x);
        assert j < k ==> Rarer(availability)(x, needed[j]);
      }
    }
  }

  lemma {:induction false} FromActiveIs(s: State, peer: Peer, k: nat)
    ensures var c := FromActive(s, peer, k);
            && (c.Chosen? ==>
                  && c.piece in s.active && MissingOf(s.pieces, c.piece).Some?
                  && peer.bitfield.Some? && HasPiece(peer.bitfield.value, c.piece))
            && (c.NoBitfield? <==> k < |s.active| && peer.bitfield.None?)
    decreases |s.active| - k
  {
    if k < |s.active| && peer.bitfield.Some? { FromActiveIs(s, peer, k + 1); }
  }

  /** The chosen piece is active or eligible. */
  lemma ChoiceIs(s: State, peer: Peer, availability: seq<int>)
    ensures var c := SelectForPeer(s, peer, availability);
            c.Chosen? ==> c.piece in s.active || (c.piece < |s.pieces| && c.piece !in s.completed)
  {
    FromActiveIs(s, peer, 0);
    RarestFirst(s, availability);
  }

  // ---------------------------------------------------------------- requesting keeps the invariant

  lemma ActivateKeeps(t: Torrent, done: set<nat>, s: State, i: nat, sha1: bytes -> bytes)
    requires Ok(t, done, s, sha1) && (i in s.active || (i < |s.pieces| && i !in s.completed))
    ensures Ok(t, done, Activate(s, i), sha1)
  {
    hide PiecesGood, CompletedGood;
    forall k | 0 <= k < |s.pending| ensures RequestGood(s.pieces, Activate(s, i).active, s.pending[k]) {
      assert RequestGood(s.pieces, s.active, s.pending[k]);
    }
  }

  lemma RequestKeeps(t: Torrent, done: set<nat>, s: State, e: Pending, sha1: bytes -> bytes)
    requires Ok(t, done, s, sha1) && RequestGood(s.pieces, s.active, e) && !Has(s.pending, AtBlock(e.piece, e.block))
    ensures Ok(t, done, s.(pending := s.pending + [e]), sha1)
  {
    hide PiecesGood, CompletedGood, ActiveGood;
    forall k | 0 <= k < |s.pending| ensures s.pending[k].piece != e.piece {
      assert RequestGood(s.pieces, s.active, s.pending[k]);
      assert !Matches(s.pending[k], AtBlock(e.piece, e.block));
    }
  }

  lemma RequestNextKeeps(t: Torrent, done: set<nat>, s: State, peer: Peer, availability: seq<int>, now: int,
                         sha1: bytes -> bytes)
    requires Ok(t, done, s, sha1)
    ensures Ok(t, done, RequestNext(s, peer, availability, now).0, sha1)
    ensures RequestNext(s, peer, availability, now).0.pieces == s.pieces
  {
    hide Ok, SelectForPeer, Has;
    var choice := SelectForPeer(s, peer, availability);
    ChoiceIs(s, peer, availability);
    if choice.Chosen? {
      ActivateKeeps(t, done, s, choice.piece, sha1);
      var a, block := Activate(s, choice.piece), MissingOf(s.pieces, choice.piece);
      if !(block.None? || Has(s.pending, AtBlock(choice.piece, block.value.0)) || !peer.canSend) {
        RequestKeeps(t, done, a, Pending(choice.piece, block.value.0, peer.key, now), sha1);
      }
    }
  }

  lemma {:induction false} RequestLoopKeeps(t: Torrent, done: set<nat>, s: State, peer: Peer, availability: seq<int>,
                                            maxActive: nat, now: int, count: nat, sha1: bytes -> bytes)
    requires Ok(t, done, s, sha1)
    ensures Ok(t, done, RequestLoop(s, peer, availability, maxActive, now, count).0, sha1)
    ensures RequestLoop(s, peer, availability, maxActive, now, count).0.pieces == s.pieces
    decreases maxActive - count
  {
    hide Ok, RequestNext;
    if count < maxActive {
      RequestNextKeeps(t, done, s, peer, availability, now, sha1);
      var (next, outcome) := RequestNext(s, peer, availability, now);
      if outcome.Sent? { RequestLoopKeeps(t, done, next, peer, availability, maxActive, now, count + 1, sha1); }
    }
  }

  lemma {:induction false} RequestAllKeeps(t: Torrent, done: set<nat>, s: State, peers: seq<Peer>,
                                           availability: seq<int>, maxActive: nat, now: int, sha1: bytes -> bytes)
    requires Ok(t, done, s, sha1)
    ensures Ok(t, done, RequestAll(s, peers, availability, maxActive, now), sha1)
    ensures RequestAll(s, peers, availability, maxActive, now).pieces == s.pieces
    decreases |peers|
  {
    hide Ok, RequestLoop;
    if peers != [] {
      var count := CountMatching(s.pending, OfPeer(peers[0].key));
      RequestLoopKeeps(t, done, s, peers[0], availability, maxActive, now, count, sha1);
      var (next, outcome) := RequestForPeer(s, peers[0], availability, maxActive, now);
      if !outcome.Threw? { RequestAllKeeps(t, done, next, peers[1..], availability, maxActive, now, sha1); }
    }
  }

  // ---------------------------------------------------------------- receiving keeps the invariant

  ghost predicate NoneFor(es: seq<Pending>, i: nat) {
    forall k :: 0 <= k < |es| ==> es[k].piece != i
  }

  /** A request for a block is the only one for its piece. */
  lemma NoneLeft(es: seq<Pending>, i: nat, begin: int)
    requires OnePerPiece(es) && Has(es, AtBlock(i, begin))
    ensures NoneFor(Drop(es, AtBlock(i, begin)), i)
  {
    var q := AtBlock(i, begin);
    var m :| 0 <= m < |es| && Matches(es[m], q);
    forall k | 0 <= k < |Drop(es, q)| ensures Drop(es, q)[k].piece != i {
      DropElements(es, q, Drop(es, q)[k]);
      var j :| 0 <= j < |es| && es[j] == Drop(es, q)[k];
      assert j != m;
    }
  }

  lemma DropGood(ps: seq<PieceState>, active: seq<nat>, es: seq<Pending>, q: Query)
    requires PendingGood(ps, active, es)
    ensures PendingGood(ps, active, Drop(es, q))
  {
    DropOnePerPiece(es, q);
    forall k | 0 <= k < |Drop(es, q)| ensures RequestGood(ps, active, Drop(es, q)[k]) {
      DropElements(es, q, Drop(es, q)[k]);
      var j :| 0 <= j < |es| && es[j] == Drop(es, q)[k];
      assert RequestGood(ps, active, es[j]);
    }
  }

  lemma DropKeeps(t: Torrent, done: set<nat>, s: State, q: Query, sha1: bytes -> bytes)
    requires Ok(t, done, s, sha1)
    ensures Ok(t, done, s.(pending := Drop(s.pending, q)), sha1)
  {
    hide PiecesGood, CompletedGood, ActiveGood, PendingGood;
    DropGood(s.pieces, s.active, s.pending, q);
  }

  /** Changing the one piece that has no request under way. */
  lemma PendingElsewhere(ps: seq<PieceState>, active: seq<nat>, es: seq<Pending>, i: nat, p: PieceState, rest: seq<nat>)
    requires PendingGood(ps, active, es) && NoneFor(es, i) && i < |ps|
    requires forall a :: a in active && a != i ==> a in rest
    ensures PendingGood(ps[i := p], rest, es)
  {
    forall k | 0 <= k < |es| ensures RequestGood(ps[i := p], rest, es[k]) {
      assert RequestGood(ps, active, es[k]);
    }
  }

  lemma ReplaceKeeps(t: Torrent, done: set<nat>, s: State, i: nat, p: PieceState, sha1: bytes -> bytes)
    requires Ok(t, done, s, sha1) && i in s.active && i < |s.pieces| && NoneFor(s.pending, i)
    requires PieceGood(t, i, p, false)
    ensures Ok(t, done, s.(pieces := s.pieces[i := p]), sha1)
  {
    hide PieceGood, PendingGood, RequestGood;
    PendingElsewhere(s.pieces, s.active, s.pending, i, p, s.active);
  }

  lemma ActiveWithout(active: seq<nat>, count: nat, completed: set<nat>, i: nat)
    requires ActiveGood(active, count, completed)
    ensures ActiveGood(Without(active, i), count, completed + {i})
    ensures forall a :: a in Without(active, i) <==> a in active && a != i
  {
    WithoutDistinct(active, i);
    WithoutSubset(active, i);
  }

  lemma FailedKeeps(t: Torrent, done: set<nat>, s: State, i: nat, p: PieceState, sha1: bytes -> bytes)
    requires Ok(t, done, s, sha1) && i in s.active && i < |s.pieces| && NoneFor(s.pending, i)
    requires PieceGood(t, i, p, true)
    ensures Ok(t, done, PieceFailed(s, i, p), sha1)
  {
    ClearedGood(t, i, p);
    assert i !in s.completed;
    hide Ok, PieceGood, NoneFor, Without, Drop, Cleared;
    ReplaceKeeps(t, done, s, i, Cleared(p), sha1);
    var u := s.(pieces := s.pieces[i := Cleared(p)]);
    DeactivateKeeps(t, done, u, i, sha1);
    DropKeeps(t, done, u.(active := Without(u.active, i)), OfPiece(i), sha1);
  }

  lemma DeactivateKeeps(t: Torrent, done: set<nat>, s: State, i: nat, sha1: bytes -> bytes)
    requires Ok(t, done, s, sha1) && i < |s.pieces| && i !in s.completed && NoneFor(s.pending, i)
    ensures Ok(t, done, s.(active := Without(s.active, i)), sha1)
  {
    hide PiecesGood, CompletedGood, PendingGood, NoneFor, BytesOf;
    ActiveWithout(s.active, |s.pieces|, s.completed, i);
    PendingElsewhere(s.pieces, s.active, s.pending, i, s.pieces[i], Without(s.active, i));
    assert s.pieces[i := s.pieces[i]] == s.pieces;
  }

  lemma ClearedGood(t: Torrent, i: nat, p: PieceState)
    requires PieceGood(t, i, p, true)
    ensures PieceGood(t, i, Cleared(p), false)
  {
    ResetOk(p);
  }

  lemma DoneKeeps(t: Torrent, done: set<nat>, s: State, i: nat, p: PieceState, sha1: bytes -> bytes)
    requires Ok(t, done, s, sha1) && i in s.active && i < |s.pieces| && NoneFor(s.pending, i)
    requires PieceGood(t, i, p, true) && Secured(p, sha1)
    ensures Ok(t, done, PieceDone(s, i, p), sha1)
  {
    assert p.length == LengthOf(t, i) && i !in s.completed;
    hide PieceGood, PiecesGood, CompletedGood, PendingGood, ActiveGood, NoneFor, Secured, LengthOf;
    BytesAdd(t, s.completed, i, |t.hashes|);
    DonePieces(t, s.pieces, s.completed, i, p);
    DoneCompleted(s.pieces, s.completed, done, i, p, sha1);
    ActiveWithout(s.active, |s.pieces|, s.completed, i);
    PendingElsewhere(s.pieces, s.active, s.pending, i, p, Without(s.active, i));
    PieceCount(t, s.pieces, s.completed);
  }

  lemma PieceCount(t: Torrent, ps: seq<PieceState>, completed: set<nat>)
    requires PiecesGood(t, ps, completed)
    ensures |ps| == |t.hashes|
  {
  }

  lemma DoneCompleted(ps: seq<PieceState>, completed: set<nat>, done: set<nat>, i: nat, p: PieceState,
                      sha1: bytes -> bytes)
    requires CompletedGood(ps, completed, done, sha1) && i < |ps| && i !in completed && Secured(p, sha1)
    ensures CompletedGood(ps[i := p], completed + {i}, done, sha1)
  {
    hide Secured;
  }

  lemma DonePieces(t: Torrent, ps: seq<PieceState>, completed: set<nat>, i: nat, p: PieceState)
    requires PiecesGood(t, ps, completed) && i < |ps| && PieceGood(t, i, p, true)
    ensures PiecesGood(t, ps[i := p], completed + {i})
  {
    hide PieceOk, LengthOf;
    forall j: nat | j < |ps| ensures PieceGood(t, j, ps[i := p][j], j in completed + {i}) {
      assert PieceGood(t, j, ps[j], j in completed);
    }
  }

  lemma {:induction false} BytesAdd(t: Torrent, done: set<nat>, i: nat, n: nat)
    requires i !in done
    ensures BytesOf(t, done + {i}, n) == BytesOf(t, done, n) + if i < n then LengthOf(t, i) else 0
  {
    if n > 0 { BytesAdd(t, done, i, n - 1); }
  }

  lemma AddedGood(t: Torrent, i: nat, p: PieceState, begin: int, data: bytes)
    requires PieceGood(t, i, p, false)
    ensures var (q, r) := BlockAdded(p, begin, data);
            PieceGood(t, i, q, r.Ok? && r.value) && (r.Ok? && r.value ==> q.isComplete)
  {
    AddBlockOk(p, begin, data);
  }

  lemma VerifiedGood(t: Torrent, i: nat, p: PieceState, sha1: bytes -> bytes)
    requires PieceGood(t, i, p, true) && p.isComplete
    ensures var v := Verified(p, sha1); PieceGood(t, i, v, true) && (v.isVerified ==> Secured(v, sha1))
  {
    VerifyOk(p, sha1);
  }

  lemma HandlePieceKeeps(t: Torrent, done: set<nat>, s: State, index: int, begin: int, data: bytes,
                         sha1: bytes -> bytes)
    requires Ok(t, done, s, sha1)
    ensures Ok(t, done, HandlePiece(s, index, begin, data, sha1), sha1)
  {
    if 0 <= index < |s.pieces| && Has(s.pending, AtBlock(index, begin)) {
      var u := s.(pending := Drop(s.pending, AtBlock(index, begin)));
      RequestedActive(t, done, s, index, begin, sha1);
      hide Ok, BlockAdded, Verified, PieceGood, NoneFor, Drop;
      DropKeeps(t, done, s, AtBlock(index, begin), sha1);
      AddedGood(t, index, s.pieces[index], begin, data);
      var (p, r) := BlockAdded(s.pieces[index], begin, data);
      if r.Err? || !r.value {
        ReplaceKeeps(t, done, u, index, p, sha1);
      } else {
        VerifiedGood(t, index, p, sha1);
        var v := Verified(p, sha1);
        if v.isVerified { DoneKeeps(t, done, u, index, v, sha1); } else { FailedKeeps(t, done, u, index, v, sha1); }
      }
    }
  }

  lemma RequestedActive(t: Torrent, done: set<nat>, s: State, i: nat, begin: int, sha1: bytes -> bytes)
    requires Ok(t, done, s, sha1) && Has(s.pending, AtBlock(i, begin)) && i < |s.pieces|
    ensures i in s.active && i !in s.completed
    ensures PieceGood(t, i, s.pieces[i], false)
    ensures NoneFor(Drop(s.pending, AtBlock(i, begin)), i)
  {
    NoneLeft(s.pending, i, begin);
    var m :| 0 <= m < |s.pending| && Matches(s.pending[m], AtBlock(i, begin));
    assert RequestGood(s.pieces, s.active, s.pending[m]);
  }

  // ---------------------------------------------------------------- giving requests up

  /** No block of a pending request was received, so marking it as not received changes nothing. */
  lemma {:induction false} UnmarkNothing(t: Torrent, ps: seq<PieceState>, active: seq<nat>, completed: set<nat>,
                                         es: seq<Pending>, q: Query)
    requires PiecesGood(t, ps, completed) && forall k :: 0 <= k < |es| ==> RequestGood(ps, active, es[k])
    ensures UnmarkAll(ps, es, q) == ps
  {
    if es != [] {
      UnmarkNothing(t, ps, active, completed, es[..|es| - 1], q);
      var e := es[|es| - 1];
      assert RequestGood(ps, active, e);
      assert PieceGood(t, e.piece, ps[e.piece], e.piece in completed);
      UnmarkMissing(ps[e.piece], FirstMissing(ps[e.piece].blocks));
      assert ps[e.piece := ps[e.piece]] == ps;
    }
  }

  /** Cancels and timeouts drop the requests they are for and never take a received block back. */
  lemma GiveUpIs(t: Torrent, done: set<nat>, s: State, q: Query, sha1: bytes -> bytes)
    requires Ok(t, done, s, sha1)
    ensures GiveUp(s, q) == s.(pending := Drop(s.pending, q))
    ensures forall e :: e in GiveUp(s, q).pending <==> e in s.pending && !Matches(e, q)
  {
    UnmarkNothing(t, s.pieces, s.active, s.completed, s.pending, q);
    forall e ensures e in Drop(s.pending, q) <==> e in s.pending && !Matches(e, q) { DropElements(s.pending, q, e); }
  }

  // ---------------------------------------------------------------- every run

  lemma FreshGood(t: Torrent, i: nat, completed: bool)
    requires TorrentOk(t) && i < |t.hashes|
    ensures PieceGood(t, i, FreshPiece(t, i), completed)
  {
    LengthPositive(t, i);
    FreshOk(i, LengthOf(t, i), t.hashes[i], BLOCK_SIZE);
  }

  lemma InitOk(t: Torrent, done: set<nat>, sha1: bytes -> bytes)
    requires TorrentOk(t) && forall i <- done :: i < |t.hashes|
    ensures Ok(t, done, Init(t, done), sha1)
  {
    hide PieceGood, TorrentOk, FreshPiece, BytesOf;
    forall i: nat | i < |t.hashes| ensures PieceGood(t, i, FreshPiece(t, i), i in done) {
      FreshGood(t, i, i in done);
    }
  }

  lemma LengthPositive(t: Torrent, i: nat)
    requires TorrentOk(t) && i < |t.hashes|
    ensures LengthOf(t, i) > 0
  {
  }

  lemma StepKeeps(t: Torrent, done: set<nat>, s: State, op: Op, maxActive: nat, sha1: bytes -> bytes)
    requires Ok(t, done, s, sha1)
    ensures Ok(t, done, Step(s, op, maxActive, sha1), sha1)
  {
    hide RequestAll, HandlePiece, GiveUp, SelectionDone, PiecesGood, CompletedGood, ActiveGood, PendingGood, BytesOf;
    match op
    case OpRequest(peers, availability, now) => RequestAllKeeps(t, done, s, peers, availability, maxActive, now, sha1);
    case OpResume(peers, availability, now) =>
      RequestAllKeeps(t, done, s.(isPaused := false), peers, availability, maxActive, now, sha1);
    case OpPiece(index, begin, data) => HandlePieceKeeps(t, done, s, index, begin, data, sha1);
    case OpGiveUp(q) => GiveUpIs(t, done, s, q, sha1); DropKeeps(t, done, s, q, sha1);
    case _ =>
  }

  lemma {:induction false} EveryRunOk(t: Torrent, done: set<nat>, ops: seq<Op>, maxActive: nat, sha1: bytes -> bytes)
    requires TorrentOk(t) && forall i <- done :: i < |t.hashes|
    ensures Ok(t, done, Run(t, done, ops, maxActive, sha1), sha1)
  {
    hide Ok, Step;
    if ops == [] {
      InitOk(t, done, sha1);
    } else {
      EveryRunOk(t, done, ops[..|ops| - 1], maxActive, sha1);
      StepKeeps(t, done, Run(t, done, ops[..|ops| - 1], maxActive, sha1), ops[|ops| - 1], maxActive, sha1);
    }
  }

  // ---------------------------------------------------------------- what follows

  /**
   In every run a piece has at most one request under way, and it is for the first missing block of an active piece.
   */
  lemma RequestsInOrder(t: Torrent, done: set<nat>, ops: seq<Op>, maxActive: nat, sha1: bytes -> bytes, i: nat, j: nat)
    requires TorrentOk(t) && forall i <- done :: i < |t.hashes|
    ensures var s := Run(t, done, ops, maxActive, sha1);
            && (i < |s.pending| ==>
                  var e := s.pending[i];
                  e.piece in s.active && e.piece !in s.completed
                  && e.piece < |s.pieces| && NextMissing(s.pieces[e.piece]).Some?
                    && NextMissing(s.pieces[e.piece]).value.0 == e.block)
            && (i < |s.pending| && j < |s.pending| && s.pending[i].piece == s.pending[j].piece ==> i == j)
  {
    hide PiecesGood, CompletedGood, Run, BytesOf;
    EveryRunOk(t, done, ops, maxActive, sha1);
    var s := Run(t, done, ops, maxActive, sha1);
    if i < |s.pending| { assert RequestGood(s.pieces, s.active, s.pending[i]); }
  }

  /** In every run a piece downloaded by it is assembled from its blocks and has the hash the torrent states. */
  lemma DownloadedVerified(t: Torrent, done: set<nat>, ops: seq<Op>, maxActive: nat, sha1: bytes -> bytes, i: nat)
    requires TorrentOk(t) && forall i <- done :: i < |t.hashes|
    requires i in Run(t, done, ops, maxActive, sha1).completed && i !in done
    ensures i < |t.hashes| == |Run(t, done, ops, maxActive, sha1).pieces|
    ensures var p := Run(t, done, ops, maxActive, sha1).pieces[i];
            p.data == Some(Flatten(Datas(p.blocks)))
            && |p.data.value| == LengthOf(t, i) && sha1(p.data.value) == t.hashes[i]
  {
    hide ActiveGood, PendingGood, Run, BytesOf, PieceOk;
    EveryRunOk(t, done, ops, maxActive, sha1);
    var s := Run(t, done, ops, maxActive, sha1);
    assert PieceGood(t, i, s.pieces[i], i in s.completed);
    VerifiedComplete(s.pieces[i]);
    AssembledExactly(s.pieces[i]);
  }

  lemma VerifiedComplete(p: PieceState)
    requires PieceOk(p) && p.isVerified
    ensures p.isComplete
  {
  }

  lemma {:induction false} AllBytes(t: Torrent, done: set<nat>, n: nat)
    requires TorrentOk(t) && n < |t.hashes|
    ensures BytesOf(t, done, n) <= n * t.pieceLength
    ensures BytesOf(t, done, n) == n * t.pieceLength <==> forall i: nat :: i < n ==> i in done
  {
    if n > 0 {
      AllBytes(t, done, n - 1);
      LengthPositive(t, n - 1);
      assert n * t.pieceLength == (n - 1) * t.pieceLength + t.pieceLength;
    } else {
      assert 0 * t.pieceLength == 0;
    }
  }

  /** The byte count is the length of the torrent exactly when every piece is there. */
  lemma AllBytesIff(t: Torrent, done: set<nat>)
    requires TorrentOk(t)
    ensures BytesOf(t, done, |t.hashes|) <= t.length
    ensures BytesOf(t, done, |t.hashes|) == t.length <==> forall i: nat :: i < |t.hashes| ==> i in done
  {
    var n := |t.hashes|;
    if n > 0 {
      AllBytes(t, done, n - 1);
      LengthPositive(t, n - 1);
    }
  }

  /** A set of numbers below n has n elements exactly when it has them all. */
  lemma {:induction false} FullSet(c: set<nat>, n: nat)
    requires forall i <- c :: i < n
    ensures |c| <= n && (|c| == n <==> forall i: nat :: i < n ==> i in c)
    decreases n
  {
    if n == 0 {
      assert c == {};
    } else {
      var rest := c - {n - 1};
      FullSet(rest, n - 1);
      if n - 1 in c { assert c == rest + {n - 1}; } else { assert c == rest; }
      assert forall i: nat :: i < n - 1 ==> (i in c <==> i in rest);
    }
  }

  /**
   The bytes counted are those of the completed pieces; they reach the length of the torrent exactly when all are
   there.
   */
  lemma BytesConserved(t: Torrent, done: set<nat>, ops: seq<Op>, maxActive: nat, sha1: bytes -> bytes)
    requires TorrentOk(t) && forall i <- done :: i < |t.hashes|
    ensures var s := Run(t, done, ops, maxActive, sha1);
            && s.downloaded == BytesOf(t, s.completed, |t.hashes|) <= t.length
            && (s.downloaded == t.length <==> forall i: nat :: i < |t.hashes| ==> i in s.completed)
  {
    hide ActiveGood, PendingGood, Run, BytesOf, PieceGood;
    EveryRunOk(t, done, ops, maxActive, sha1);
    var s := Run(t, done, ops, maxActive, sha1);
    AllBytesIff(t, s.completed);
  }

  // ---------------------------------------------------------------- progress is not lost

  /** The message completes its piece with bytes that have the wrong hash. */
  predicate FailsHash(s: State, op: Op, i: nat, sha1: bytes -> bytes) {
    && op.OpPiece? && op.index == i < |s.pieces|
    && var (p, r) := BlockAdded(s.pieces[i], op.begin, op.data);
       r.Ok? && r.value && !Verified(p, sha1).isVerified
  }

  predicate BlocksKept(p: PieceState, q: PieceState) {
    |p.blocks| == |q.blocks| && forall k :: 0 <= k < |p.blocks| && p.blocks[k].received ==> q.blocks[k] == p.blocks[k]
  }

  lemma AddedKeepsBlocks(p: PieceState, begin: int, data: bytes)
    ensures BlocksKept(p, BlockAdded(p, begin, data).0)
  {
  }

  lemma VerifiedBlocks(p: PieceState, sha1: bytes -> bytes)
    ensures Verified(p, sha1).blocks == p.blocks
  {
  }

  lemma {:induction false} RequestLoopCompleted(s: State, peer: Peer, availability: seq<int>, maxActive: nat, now: int,
                                                count: nat)
    ensures RequestLoop(s, peer, availability, maxActive, now, count).0.completed == s.completed
    decreases maxActive - count
  {
    hide SelectForPeer, Has;
    if count < maxActive {
      var (next, outcome) := RequestNext(s, peer, availability, now);
      if outcome.Sent? { RequestLoopCompleted(next, peer, availability, maxActive, now, count + 1); }
    }
  }

  lemma {:induction false} RequestAllCompleted(s: State, peers: seq<Peer>, availability: seq<int>, maxActive: nat,
                                               now: int)
    ensures RequestAll(s, peers, availability, maxActive, now).completed == s.completed
    decreases |peers|
  {
    hide RequestLoop;
    if peers != [] {
      RequestLoopCompleted(s, peers[0], availability, maxActive, now, CountMatching(s.pending, OfPeer(peers[0].key)));
      var (next, outcome) := RequestForPeer(s, peers[0], availability, maxActive, now);
      if !outcome.Threw? { RequestAllCompleted(next, peers[1..], availability, maxActive, now); }
    }
  }

  lemma RequestAllPieces(t: Torrent, done: set<nat>, s: State, peers: seq<Peer>, availability: seq<int>,
                         maxActive: nat, now: int, sha1: bytes -> bytes)
    requires Ok(t, done, s, sha1)
    ensures var r := RequestBlocks(s, peers, availability, maxActive, now);
            r.pieces == s.pieces && r.completed == s.completed
  {
    hide Ok, RequestAll;
    RequestAllKeeps(t, done, s, peers, availability, maxActive, now, sha1);
    RequestAllCompleted(s, peers, availability, maxActive, now);
  }

  lemma SameButPaused(t: Torrent, done: set<nat>, s: State, sha1: bytes -> bytes)
    requires Ok(t, done, s, sha1)
    ensures Ok(t, done, s.(isPaused := false), sha1)
  {
  }

  /** Only a block message changes a piece or the completed set. */
  lemma OtherStep(t: Torrent, done: set<nat>, s: State, op: Op, maxActive: nat, sha1: bytes -> bytes)
    requires Ok(t, done, s, sha1) && !op.OpPiece?
    ensures var u := Step(s, op, maxActive, sha1); u.pieces == s.pieces && u.completed == s.completed
  {
    hide RequestBlocks, GiveUp, Drop, SelectionDone, Ok;
    match op
    case OpRequest(peers, availability, now) => RequestAllPieces(t, done, s, peers, availability, maxActive, now, sha1);
    case OpResume(peers, availability, now) =>
      SameButPaused(t, done, s, sha1);
      RequestAllPieces(t, done, s.(isPaused := false), peers, availability, maxActive, now, sha1);
    case OpGiveUp(q) => GiveUpIs(t, done, s, q, sha1);
    case _ =>
  }

  /** Whatever happens, a received block stays, unless its piece turns out to have the wrong hash. */
  lemma ReceivedStays(t: Torrent, done: set<nat>, s: State, op: Op, maxActive: nat, sha1: bytes -> bytes, i: nat)
    requires Ok(t, done, s, sha1) && i < |s.pieces| && !FailsHash(s, op, i, sha1)
    ensures i < |Step(s, op, maxActive, sha1).pieces| && BlocksKept(s.pieces[i], Step(s, op, maxActive, sha1).pieces[i])
  {
    hide BlockAdded, Drop, Ok, Has, Without, Verified;
    if op.OpPiece? {
      if op.index == i {
        AddedKeepsBlocks(s.pieces[i], op.begin, op.data);
        VerifiedBlocks(BlockAdded(s.pieces[i], op.begin, op.data).0, sha1);
      }
    } else {
      OtherStep(t, done, s, op, maxActive, sha1);
      hide Step;
    }
  }

  /** A block message does not touch a completed piece. */
  lemma CompletedPiece(t: Torrent, done: set<nat>, s: State, index: int, begin: int, data: bytes, sha1: bytes -> bytes,
                       i: nat)
    requires Ok(t, done, s, sha1) && i in s.completed && i < |s.pieces|
    ensures var u := HandlePiece(s, index, begin, data, sha1);
            i in u.completed && i < |u.pieces| && u.pieces[i] == s.pieces[i]
  {
    hide Ok, BlockAdded, Drop, Has, Without, Verified, Cleared;
    if index == i && Has(s.pending, AtBlock(i, begin)) { RequestedActive(t, done, s, i, begin, sha1); }
  }

  /** A completed piece stays completed, with the same bytes. */
  lemma CompletedStep(t: Torrent, done: set<nat>, s: State, op: Op, maxActive: nat, sha1: bytes -> bytes, i: nat)
    requires Ok(t, done, s, sha1) && i in s.completed
    ensures i < |s.pieces| && i in Step(s, op, maxActive, sha1).completed
    ensures i < |Step(s, op, maxActive, sha1).pieces| && Step(s, op, maxActive, sha1).pieces[i] == s.pieces[i]
  {
    assert i < |s.pieces|;
    hide Ok, HandlePiece, RequestBlocks, GiveUp, AfterWrite, CheckCompletion;
    if op.OpPiece? {
      CompletedPiece(t, done, s, op.index, op.begin, op.data, sha1, i);
    } else {
      OtherStep(t, done, s, op, maxActive, sha1);
      hide Step;
    }
  }

  /** In every run a completed piece stays completed and keeps its bytes. */
  lemma {:induction false} CompletedStays(t: Torrent, done: set<nat>, before: seq<Op>, later: seq<Op>, maxActive: nat,
                                          sha1: bytes -> bytes, i: nat)
    requires TorrentOk(t) && forall i <- done :: i < |t.hashes|
    requires i in Run(t, done, before, maxActive, sha1).completed
    ensures var s, u := Run(t, done, before, maxActive, sha1), Run(t, done, before + later, maxActive, sha1);
            i < |s.pieces| && i < |u.pieces| && i in u.completed && u.pieces[i] == s.pieces[i]
    decreases |later|
  {
    hide Step, Ok;
    EveryRunOk(t, done, before, maxActive, sha1);
    if later == [] {
      assert before + [] == before;
      CompletedStep(t, done, Run(t, done, before, maxActive, sha1), OpStop, maxActive, sha1, i);
    } else {
      var front, op := later[..|later| - 1], later[|later| - 1];
      assert (before + later)[..|before + later| - 1] == before + front;
      CompletedStays(t, done, before, front, maxActive, sha1, i);
      EveryRunOk(t, done, before + front, maxActive, sha1);
      CompletedStep(t, done, Run(t, done, before + front, maxActive, sha1), op, maxActive, sha1, i);
    }
  }

  // ---------------------------------------------------------------- no peer is asked for too much

  lemma CountSnoc(es: seq<Pending>, e: Pending, q: Query)
    ensures CountMatching(es + [e], q) == CountMatching(es, q) + if Matches(e, q) then 1 else 0
  {
    assert (es + [e])[..|es|] == es;
  }

  lemma {:induction false} CountDrop(es: seq<Pending>, dropped: Query, q: Query)
    ensures CountMatching(Drop(es, dropped), q) <= CountMatching(es, q)
  {
    if es != [] {
      CountDrop(es[..|es| - 1], dropped, q);
      CountSnoc(Drop(es[..|es| - 1], dropped), es[|es| - 1], q);
    }
  }

  /** One attempt adds one request of this peer if it is sent, and none of any other. */
  lemma CountNext(s: State, peer: Peer, availability: seq<int>, now: int, key: string)
    ensures var (next, outcome) := RequestNext(s, peer, availability, now);
            CountMatching(next.pending, OfPeer(key))
            == CountMatching(s.pending, OfPeer(key)) + if outcome.Sent? && peer.key == key then 1 else 0
  {
    hide SelectForPeer, Has, CountMatching;
    var choice := SelectForPeer(s, peer, availability);
    if choice.Chosen? && MissingOf(s.pieces, choice.piece).Some? {
      var block := MissingOf(s.pieces, choice.piece).value.0;
      CountSnoc(s.pending, Pending(choice.piece, block, peer.key, now), OfPeer(key));
    }
  }

  lemma {:induction false} CountLoop(s: State, peer: Peer, availability: seq<int>, maxActive: nat, now: int,
                                     count: nat, key: string)
    requires CountMatching(s.pending, OfPeer(key)) <= maxActive
    requires peer.key == key ==> count == CountMatching(s.pending, OfPeer(key))
    ensures CountMatching(RequestLoop(s, peer, availability, maxActive, now, count).0.pending, OfPeer(key)) <= maxActive
    decreases maxActive - count
  {
    hide RequestNext, CountMatching;
    if count < maxActive {
      CountNext(s, peer, availability, now, key);
      var (next, outcome) := RequestNext(s, peer, availability, now);
      if outcome.Sent? { CountLoop(next, peer, availability, maxActive, now, count + 1, key); }
    }
  }

  lemma {:induction false} CountAll(s: State, peers: seq<Peer>, availability: seq<int>, maxActive: nat, now: int,
                                    key: string)
    requires CountMatching(s.pending, OfPeer(key)) <= maxActive
    ensures CountMatching(RequestAll(s, peers, availability, maxActive, now).pending, OfPeer(key)) <= maxActive
    decreases |peers|
  {
    hide RequestLoop, CountMatching;
    if peers != [] {
      CountLoop(s, peers[0], availability, maxActive, now, CountMatching(s.pending, OfPeer(peers[0].key)), key);
      var (next, outcome) := RequestForPeer(s, peers[0], availability, maxActive, now);
      if !outcome.Threw? { CountAll(next, peers[1..], availability, maxActive, now, key); }
    }
  }

  lemma CountStep(s: State, op: Op, maxActive: nat, sha1: bytes -> bytes, key: string)
    requires CountMatching(s.pending, OfPeer(key)) <= maxActive
    ensures CountMatching(Step(s, op, maxActive, sha1).pending, OfPeer(key)) <= maxActive
  {
    hide RequestAll, CountMatching, Drop, UnmarkAll, BlockAdded, Verified, SelectionDone, Has;
    match op
    case OpRequest(peers, availability, now) => CountAll(s, peers, availability, maxActive, now, key);
    case OpResume(peers, availability, now) =>
      CountAll(s.(isPaused := false), peers, availability, maxActive, now, key);
    case OpPiece(index, begin, data) =>
      CountDrop(s.pending, AtBlock(index, begin), OfPeer(key));
      CountDrop(Drop(s.pending, AtBlock(index, begin)), OfPiece(index), OfPeer(key));
    case OpGiveUp(q) => CountDrop(s.pending, q, OfPeer(key));
    case _ =>
  }

  /** How many requests to a peer are under way. */
  ghost function RequestsTo(es: seq<Pending>, key: string): nat {
    |set k | 0 <= k < |es| && es[k].peer == key|
  }

  lemma {:induction false} CountIs(es: seq<Pending>, key: string)
    ensures CountMatching(es, OfPeer(key)) == RequestsTo(es, key)
  {
    if es != [] {
      var n := |es| - 1;
      CountIs(es[..n], key);
      RequestsSnoc(es[..n], es[n], key);
      hide RequestsTo;
      assert es == es[..n] + [es[n]];
    }
  }

  lemma RequestsSnoc(es: seq<Pending>, e: Pending, key: string)
    ensures RequestsTo(es + [e], key) == RequestsTo(es, key) + if e.peer == key then 1 else 0
  {
    var all := es + [e];
    var before := set k | 0 <= k < |es| && es[k].peer == key;
    assert (set k | 0 <= k < |all| && all[k].peer == key) == before + if e.peer == key then {|es|} else {};
  }

  lemma {:induction false} RunCount(t: Torrent, done: set<nat>, ops: seq<Op>, maxActive: nat, sha1: bytes -> bytes,
                                    key: string)
    ensures CountMatching(Run(t, done, ops, maxActive, sha1).pending, OfPeer(key)) <= maxActive
  {
    if ops == [] {
      assert Run(t, done, [], maxActive, sha1).pending == [];
    } else {
      hide Step;
      RunCount(t, done, ops[..|ops| - 1], maxActive, sha1, key);
      CountStep(Run(t, done, ops[..|ops| - 1], maxActive, sha1), ops[|ops| - 1], maxActive, sha1, key);
    }
  }

  /** In every run, whichever peers come and go, no peer has more than `maxActive` requests under way. */
  lemma PeerLimit(t: Torrent, done: set<nat>, ops: seq<Op>, maxActive: nat, sha1: bytes -> bytes, key: string)
    ensures RequestsTo(Run(t, done, ops, maxActive, sha1).pending, key) <= maxActive
  {
    RunCount(t, done, ops, maxActive, sha1, key);
    CountIs(Run(t, done, ops, maxActive, sha1).pending, key);
  }
}
