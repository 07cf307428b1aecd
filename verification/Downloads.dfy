/**
 What the download manager does, as functions on its state: which blocks it requests, how it takes them in, and what it
 does when a piece is verified, fails, or a request is given up. Peers, piece availability, clocks and SHA-1 are inputs.
 */
module Downloads {
  import opened Arith
  import opened Blocks
  import opened Bytes
  import opened Sorting

  const REQUEST_TIMEOUT: int := 30000

  datatype Torrent = Torrent(hashes: seq<bytes>, pieceLength: nat, length: nat)

  /** Every piece has a hash of 20 bytes and at least one byte. */
  predicate TorrentOk(t: Torrent) {
    var n := |t.hashes|;
    && (forall i :: 0 <= i < n ==> |t.hashes[i]| == 20)
    && (n > 1 ==> t.pieceLength > 0)
    && if n == 0 then t.length == 0 else (n - 1) * t.pieceLength < t.length
  }

  /** The length that getPieceByIndex gives to piece i. */
  function LengthOf(t: Torrent, i: nat): nat {
    var length := if i == |t.hashes| - 1 then t.length - i * t.pieceLength else t.pieceLength;
    if length < 0 then 0 else length
  }

  /** A connected peer as the manager sees it; `canSend` tells whether its socket takes a request. */
  datatype Peer = Peer(key: string, choking: bool, handshakeComplete: bool, bitfield: Option<bytes>, canSend: bool)

  const BIT_VALUES: seq<nat> := [128, 64, 32, 16, 8, 4, 2, 1]

  /** PeerManager.hasPiece */
  predicate HasPiece(bitfield: bytes, i: nat) {
    i / 8 < |bitfield| && (bitfield[i / 8] / BIT_VALUES[i % 8]) % 2 == 1
  }

  datatype Pending = Pending(piece: nat, block: nat, peer: string, timestamp: int)

  /**
   Maps that the manager walks through are lists in insertion order; `writing` counts the verified pieces being
   written.
   */
  datatype State = State(
    pieces: seq<PieceState>,
    active: seq<nat>,
    completed: set<nat>,
    pending: seq<Pending>,
    downloaded: nat,
    writing: nat,
    skipped: set<nat>,
    isComplete: bool,
    isPaused: bool,
    isRunning: bool
  )

  function FreshPieces(t: Torrent, n: nat): (r: seq<PieceState>)
    ensures |r| == n
    ensures forall i :: 0 <= i < n ==> r[i] == FreshPiece(t, i)
  {
    if n == 0 then [] else FreshPieces(t, n - 1) + [FreshPiece(t, n - 1)]
  }

  function FreshPiece(t: Torrent, i: nat): PieceState {
    Fresh(i, LengthOf(t, i), if i < |t.hashes| then t.hashes[i] else [], BLOCK_SIZE)
  }

  /** A manager that starts with the pieces `done` already on the disk. */
  function Init(t: Torrent, done: set<nat>): State {
    State(FreshPieces(t, |t.hashes|), [], done, [], BytesOf(t, done, |t.hashes|), 0, {}, false, false, false)
  }

  /** The bytes of those of the first n pieces that are in the set. */
  function BytesOf(t: Torrent, done: set<nat>, n: nat): nat {
    if n == 0 then 0 else BytesOf(t, done, n - 1) + if n - 1 in done then LengthOf(t, n - 1) else 0
  }

  // ---------------------------------------------------------------- requests under way

  datatype Query = AtBlock(piece: int, block: int) | OfPiece(piece: int) | OfPeer(peer: string) | Older(now: int)

  predicate Matches(e: Pending, q: Query) {
    match q
    case AtBlock(piece, block) => e.piece == piece && e.block == block
    case OfPiece(piece) => e.piece == piece
    case OfPeer(peer) => e.peer == peer
    case Older(now) => now - e.timestamp > REQUEST_TIMEOUT
  }

  function Drop(es: seq<Pending>, q: Query): seq<Pending> {
    if es == [] then []
    else
      var rest := Drop(es[..|es| - 1], q);
      if Matches(es[|es| - 1], q) then rest else rest + [es[|es| - 1]]
  }

  predicate Has(es: seq<Pending>, q: Query) {
    exists i :: 0 <= i < |es| && Matches(es[i], q)
  }

  function CountMatching(es: seq<Pending>, q: Query): nat {
    if es == [] then 0 else CountMatching(es[..|es| - 1], q) + if Matches(es[|es| - 1], q) then 1 else 0
  }

  // ---------------------------------------------------------------- choosing a piece

  predicate Eligible(s: State, availability: seq<int>, i: nat) {
    i !in s.skipped && i !in s.completed && i !in s.active && Availability(availability, i) > 0
  }

  function Availability(availability: seq<int>, i: nat): int {
    if i < |availability| then availability[i] else 0
  }

  function Needed(s: State, availability: seq<int>, n: nat): seq<nat> {
    if n == 0 then []
    else if Eligible(s, availability, n - 1) then Needed(s, availability, n - 1) + [n - 1]
    else Needed(s, availability, n - 1)
  }

  function Rarer(availability: seq<int>): (nat, nat) -> bool {
    (a: nat, b: nat) => Availability(availability, a) < Availability(availability, b)
  }

  /** selectNextPiece: rarest first. */
  function SelectNext(s: State, availability: seq<int>): Option<nat> {
    var needed := Needed(s, availability, |s.pieces|);
    if needed == [] then None else Some(Sort(needed, Rarer(availability))[0])
  }

  datatype Choice = Chosen(piece: nat) | NoPiece | NoBitfield

  function MissingOf(ps: seq<PieceState>, i: nat): Option<(nat, nat)> {
    if i < |ps| then NextMissing(ps[i]) else None
  }

  /** The first active piece, from place k on, that the peer has and that misses a block. */
  function FromActive(s: State, peer: Peer, k: nat): Choice
    decreases |s.active| - k
  {
    if k >= |s.active| then NoPiece
    else if peer.bitfield.None? then NoBitfield
    else if HasPiece(peer.bitfield.value, s.active[k]) && MissingOf(s.pieces, s.active[k]).Some? then
      Chosen(s.active[k])
    else FromActive(s, peer, k + 1)
  }

  /** _selectPieceForPeer; a peer without a bitfield makes it throw as soon as a piece is active. */
  function SelectForPeer(s: State, peer: Peer, availability: seq<int>): Choice {
    var choice := FromActive(s, peer, 0);
    if !choice.NoPiece? then choice
    else if SelectNext(s, availability).Some? then Chosen(SelectNext(s, availability).value)
    else NoPiece
  }

  // ---------------------------------------------------------------- requesting

  datatype Outcome = Sent | NotSent | Threw

  function Activate(s: State, i: nat): State {
    if i in s.active then s else s.(active := s.active + [i])
  }

  /** _requestNextBlockForPeer */
  function RequestNext(s: State, peer: Peer, availability: seq<int>, now: int): (State, Outcome) {
    var choice := SelectForPeer(s, peer, availability);
    if choice.NoBitfield? then (s, Threw)
    else if choice.NoPiece? then (s, NotSent)
    else
      var a, block := Activate(s, choice.piece), MissingOf(s.pieces, choice.piece);
      if block.None? || Has(s.pending, AtBlock(choice.piece, block.value.0)) || !peer.canSend then (a, NotSent)
      else (a.(pending := a.pending + [Pending(choice.piece, block.value.0, peer.key, now)]), Sent)
  }

  /** The loop of _requestBlocksForPeer, `count` requests of this peer being under way. */
  function RequestLoop(s: State, peer: Peer, availability: seq<int>, maxActive: nat, now: int, count: nat)
    : (State, Outcome)
    decreases maxActive - count
  {
    if count >= maxActive then (s, NotSent)
    else
      var (next, outcome) := RequestNext(s, peer, availability, now);
      if outcome.Sent? then RequestLoop(next, peer, availability, maxActive, now, count + 1) else (next, outcome)
  }

  /** _requestBlocksForPeer */
  function RequestForPeer(s: State, peer: Peer, availability: seq<int>, maxActive: nat, now: int): (State, Outcome) {
    if peer.choking || !peer.handshakeComplete then (s, NotSent)
    else RequestLoop(s, peer, availability, maxActive, now, CountMatching(s.pending, OfPeer(peer.key)))
  }

  function RequestAll(s: State, peers: seq<Peer>, availability: seq<int>, maxActive: nat, now: int): State
    decreases |peers|
  {
    if peers == [] then s
    else
      var (next, outcome) := RequestForPeer(s, peers[0], availability, maxActive, now);
      if outcome.Threw? then next else RequestAll(next, peers[1..], availability, maxActive, now)
  }

  function RequestBlocks(s: State, peers: seq<Peer>, availability: seq<int>, maxActive: nat, now: int): State {
    if s.isPaused || !s.isRunning then s else RequestAll(s, peers, availability, maxActive, now)
  }

  // ---------------------------------------------------------------- receiving

  function Without(s: seq<nat>, x: nat): seq<nat> {
    if s == [] then []
    else if s[|s| - 1] == x then Without(s[..|s| - 1], x)
    else Without(s[..|s| - 1], x) + [s[|s| - 1]]
  }

  /** _handleVerifiedPiece, up to the write. */
  function PieceDone(s: State, i: nat, p: PieceState): State
    requires i < |s.pieces|
  {
    s.(pieces := s.pieces[i := p], completed := s.completed + {i}, active := Without(s.active, i),
       downloaded := s.downloaded + p.length, writing := s.writing + 1)
  }

  /** _handleFailedPiece */
  function PieceFailed(s: State, i: nat, p: PieceState): State
    requires i < |s.pieces|
  {
    s.(pieces := s.pieces[i := Cleared(p)], active := Without(s.active, i), pending := Drop(s.pending, OfPiece(i)))
  }

  /** handlePieceMessage: an unrequested block is dropped, a wrong one loses its request. */
  function HandlePiece(s: State, index: int, begin: int, data: bytes, sha1: bytes -> bytes): State {
    if !(0 <= index < |s.pieces| && Has(s.pending, AtBlock(index, begin))) then s
    else
      var without := s.(pending := Drop(s.pending, AtBlock(index, begin)));
      var (p, r) := BlockAdded(s.pieces[index], begin, data);
      if r.Err? || !r.value then without.(pieces := s.pieces[index := p])
      else
        var v := Verified(p, sha1);
        if v.isVerified then PieceDone(without, index, v) else PieceFailed(without, index, v)
  }

  /** The end of _handleVerifiedPiece, after a write. */
  function AfterWrite(s: State): State {
    if s.writing == 0 then s
    else
      var w := s.(writing := s.writing - 1);
      if |s.completed| == |s.pieces| then w.(isComplete := true, isRunning := false, isPaused := true) else w
  }

  // ---------------------------------------------------------------- giving requests up

  function UnmarkOne(ps: seq<PieceState>, e: Pending): seq<PieceState> {
    if e.piece < |ps| && 0 < ps[e.piece].blockSize then ps[e.piece := Unmark(ps[e.piece], e.block)] else ps
  }

  function UnmarkAll(ps: seq<PieceState>, es: seq<Pending>, q: Query): seq<PieceState> {
    if es == [] then ps
    else
      var before := UnmarkAll(ps, es[..|es| - 1], q);
      if Matches(es[|es| - 1], q) then UnmarkOne(before, es[|es| - 1]) else before
  }

  /** cancelPeerRequests and handleRequestTimeout */
  function GiveUp(s: State, q: Query): State {
    s.(pending := Drop(s.pending, q), pieces := UnmarkAll(s.pieces, s.pending, q))
  }

  // ---------------------------------------------------------------- the other operations

  /** _checkCompletion */
  function CheckCompletion(s: State): State {
    if SelectionDone(s) && !s.isComplete then s.(isComplete := true) else s
  }

  /** Some piece is selected, and every selected piece is complete. */
  predicate SelectionDone(s: State) {
    && (exists i: nat :: i < |s.pieces| && i !in s.skipped)
    && (forall i: nat :: i < |s.pieces| && i !in s.skipped ==> i in s.completed)
  }

  datatype Op =
    | OpRequest(peers: seq<Peer>, availability: seq<int>, now: int)
    | OpPiece(index: int, begin: int, data: bytes)
    | OpAfterWrite
    | OpGiveUp(query: Query)
    | OpSetSkipped(pieces: set<nat>)
    | OpClearSkipped
    | OpStart
    | OpPause
    | OpResume(peers: seq<Peer>, availability: seq<int>, now: int)
    | OpStop

  function Step(s: State, op: Op, maxActive: nat, sha1: bytes -> bytes): State {
    match op
    case OpRequest(peers, availability, now) => RequestBlocks(s, peers, availability, maxActive, now)
    case OpPiece(index, begin, data) => HandlePiece(s, index, begin, data, sha1)
    case OpAfterWrite => AfterWrite(s)
    case OpGiveUp(q) => if q.OfPeer? || q.Older? then GiveUp(s, q) else s
    case OpSetSkipped(pieces) => CheckCompletion(s.(skipped := pieces))
    case OpClearSkipped => s.(skipped := {})
    case OpStart => if s.isRunning then s else s.(isRunning := true, isPaused := false)
    case OpPause => s.(isPaused := true)
    case OpResume(peers, availability, now) => RequestBlocks(s.(isPaused := false), peers, availability, maxActive, now)
    case OpStop => s.(isRunning := false, isPaused := true)
  }

  function Run(t: Torrent, done: set<nat>, ops: seq<Op>, maxActive: nat, sha1: bytes -> bytes): State {
    if ops == [] then Init(t, done)
    else Step(Run(t, done, ops[..|ops| - 1], maxActive, sha1), ops[|ops| - 1], maxActive, sha1)
  }
}
