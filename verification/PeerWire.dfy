/**
 The peer wire protocol (BEP 3, section "peer protocol"): the 68-byte handshake, length-prefixed messages, and a
 connection that reassembles both from data events of any size.
 */
module PeerWire {
  import opened Bytes

  type u32 = n: int | 0 <= n < 0x1_0000_0000

  datatype Frame = KeepAlive | Frame(id: byte, payload: bytes)

  datatype Message =
    | Choke
    | Unchoke
    | Interested
    | NotInterested
    | Have(pieceIndex: u32)
    | Bitfield(bitfield: bytes)
    | Request(index: u32, begin: u32, length: u32)
    | Piece(index: u32, begin: u32, data: bytes)
    | Cancel(index: u32, begin: u32, length: u32)
    | Port(port: nat)
    | Extended(extId: byte, payload: bytes)

  // ---------------------------------------------------------------- big-endian numbers

  function Be32(n: u32): (r: bytes)
    ensures |r| == 4
  {
    [n / 0x100_0000, n / 0x1_0000 % 0x100, n / 0x100 % 0x100, n % 0x100]
  }

  function ReadBe32(s: bytes, at: nat): u32
    requires at + 4 <= |s|
  {
    var a: int, b: int, c: int, d: int := s[at], s[at + 1], s[at + 2], s[at + 3];
    ((a * 0x100 + b) * 0x100 + c) * 0x100 + d
  }

  function ReadBe16(s: bytes): nat
    requires |s| == 2
  {
    var a: int, b: int := s[0], s[1];
    a * 0x100 + b
  }

  lemma Be32Value(n: u32)
    ensures var d := Be32(n);
            ((d[0] as int * 0x100 + d[1]) * 0x100 + d[2]) * 0x100 + d[3] == n
  {
    var q: int := n / 0x100;
    var r: int := q / 0x100;
    assert n / 0x1_0000 == r && n / 0x100_0000 == r / 0x100;
  }

  lemma ReadWritten(a: bytes, n: u32, b: bytes)
    ensures ReadBe32(a + Be32(n) + b, |a|) == n
  {
    Be32Value(n);
    hide Be32;
    var s := a + Be32(n) + b;
    assert s[|a|] == Be32(n)[0] && s[|a| + 1] == Be32(n)[1] && s[|a| + 2] == Be32(n)[2] && s[|a| + 3] == Be32(n)[3];
  }

  // ---------------------------------------------------------------- frames

  /** The complete frames at the front of a buffer, and the bytes left over. */
  function Frames(buf: bytes): (r: (seq<Frame>, bytes))
    decreases |buf|
  {
    if |buf| < 4 then ([], buf)
    else
      var length: int := ReadBe32(buf, 0);
      if |buf| < 4 + length then ([], buf)
      else
        var (rest, left) := Frames(buf[4 + length..]);
        ([FrameOf(buf[4..4 + length])] + rest, left)
  }

  function FrameOf(body: bytes): Frame {
    if body == [] then KeepAlive else Frame(body[0], body[1..])
  }

  /** Bytes arriving later do not change what the first four or the first frame say. */
  lemma FrontUnchanged(a: bytes, b: bytes)
    requires |a| >= 4
    ensures ReadBe32(a + b, 0) == ReadBe32(a, 0)
    ensures var n: int := ReadBe32(a, 0);
            |a| >= 4 + n ==> (a + b)[4..4 + n] == a[4..4 + n] && (a + b)[4 + n..] == a[4 + n..] + b
  {
    assert forall i :: 0 <= i < 4 ==> (a + b)[i] == a[i];
  }

  /** Frames are found in a stream whatever part of it has arrived: the rest is found when it comes. */
  lemma {:induction false} FramesAppend(a: bytes, b: bytes)
    ensures var (fs, left) := Frames(a);
            var (more, left') := Frames(left + b);
            Frames(a + b) == (fs + more, left')
    decreases |a|
  {
    hide ReadBe32, FrameOf;
    if |a| >= 4 {
      FrontUnchanged(a, b);
      var n: int := ReadBe32(a, 0);
      if |a| >= 4 + n {
        FramesAppend(a[4 + n..], b);
        var (rest, left) := Frames(a[4 + n..]);
        Regroup(FrameOf(a[4..4 + n]), rest, Frames(left + b).0);
        return;
      }
    }
    assert [] + Frames(a + b).0 == Frames(a + b).0;
  }

  lemma Regroup(f: Frame, rest: seq<Frame>, more: seq<Frame>)
    ensures [f] + (rest + more) == ([f] + rest) + more
  {
  }

  // ---------------------------------------------------------------- messages

  /** handleMessage: the typed message delivered for a frame; a payload of the wrong size delivers nothing. */
  function Interpret(f: Frame): Option<Message> {
    match f
    case KeepAlive => None
    case Frame(id, payload) =>
      if id == 0 then Some(Choke)
      else if id == 1 then Some(Unchoke)
      else if id == 2 then Some(Interested)
      else if id == 3 then Some(NotInterested)
      else if id == 4 then (if |payload| == 4 then Some(Have(ReadBe32(payload, 0))) else None)
      else if id == 5 then Some(Bitfield(payload))
      else if id == 6 then
        (if |payload| == 12 then Some(Request(ReadBe32(payload, 0), ReadBe32(payload, 4), ReadBe32(payload, 8)))
         else None)
      else if id == 7 then
        (if |payload| >= 8 then Some(Piece(ReadBe32(payload, 0), ReadBe32(payload, 4), payload[8..])) else None)
      else if id == 8 then
        (if |payload| == 12 then Some(Cancel(ReadBe32(payload, 0), ReadBe32(payload, 4), ReadBe32(payload, 8)))
         else None)
      else if id == 9 then (if |payload| == 2 then Some(Port(ReadBe16(payload))) else None)
      else if id == 20 then (if |payload| >= 1 then Some(Extended(payload[0], payload[1..])) else None)
      else None
  }

  function Delivered(fs: seq<Frame>): seq<Message> {
    if fs == [] then []
    else Delivered(fs[..|fs| - 1]) + (match Interpret(fs[|fs| - 1]) case Some(m) => [m] case None => [])
  }

  /** The frames the raw message event is emitted for. */
  function Emitted(fs: seq<Frame>): seq<Frame> {
    if fs == [] then []
    else Emitted(fs[..|fs| - 1]) + if fs[|fs| - 1] == KeepAlive then [] else [fs[|fs| - 1]]
  }

  datatype PeerState = PeerState(choking: bool, interested: bool, bitfield: Option<bytes>)

  function Apply(s: PeerState, m: Option<Message>): PeerState {
    match m
    case Some(Choke) => s.(choking := true)
    case Some(Unchoke) => s.(choking := false)
    case Some(Interested) => s.(interested := true)
    case Some(NotInterested) => s.(interested := false)
    case Some(Bitfield(b)) => s.(bitfield := Some(b))
    case _ => s
  }

  function StateAfter(fs: seq<Frame>): PeerState {
    if fs == [] then PeerState(true, false, None) else Apply(StateAfter(fs[..|fs| - 1]), Interpret(fs[|fs| - 1]))
  }

  /** The frames that mean `m`, by their bytes; the first four messages ignore what comes behind the id. */
  ghost predicate Says(f: Frame, m: Message) {
    match m
    case Choke => f.Frame? && f.id == 0
    case Unchoke => f.Frame? && f.id == 1
    case Interested => f.Frame? && f.id == 2
    case NotInterested => f.Frame? && f.id == 3
    case Have(i) => f == Frame(4, Be32(i))
    case Bitfield(b) => f == Frame(5, b)
    case Request(i, b, l) => f == Frame(6, Be32(i) + Be32(b) + Be32(l))
    case Piece(i, b, d) => f == Frame(7, Be32(i) + Be32(b) + d)
    case Cancel(i, b, l) => f == Frame(8, Be32(i) + Be32(b) + Be32(l))
    case Port(p) => p < 0x1_0000 && f == Frame(9, [p / 0x100, p % 0x100])
    case Extended(e, p) => f == Frame(20, [e] + p)
  }

  lemma WrittenRead(s: bytes, at: nat)
    requires at + 4 <= |s|
    ensures Be32(ReadBe32(s, at)) == s[at..at + 4]
  {
    var a: int, b: int, c: int, d: int := s[at], s[at + 1], s[at + 2], s[at + 3];
    var m := a * 0x100 + b;
    var k := m * 0x100 + c;
    var n := k * 0x100 + d;
    assert n / 0x100 == k && n % 0x100 == d;
    assert n / 0x1_0000 == k / 0x100 == m && n / 0x100_0000 == m / 0x100 == a;
    assert s[at..at + 4] == [s[at], s[at + 1], s[at + 2], s[at + 3]];
  }

  /** For every frame and every message: the frame is understood as the message exactly when it says it. */
  lemma InterpretIff(f: Frame, m: Message)
    ensures Interpret(f) == Some(m) <==> Says(f, m)
  {
    if m.Port? {
      PortRead(f, m.port);
    } else {
      hide Interpret, Says;
      if Interpret(f) == Some(m) { UnderstoodSaid(f, m); }
      if Says(f, m) { SaidUnderstood(f, m); }
    }
  }

  lemma SaidUnderstood(f: Frame, m: Message)
    requires Says(f, m) && !m.Port?
    ensures Interpret(f) == Some(m)
  {
    hide Be32, ReadBe32;
    match m
    case Have(i) => ReadWritten([], i, []); assert [] + Be32(i) + [] == Be32(i);
    case Request(i, b, l) => ReadThree(i, b, Be32(l)); ReadWritten(Be32(i) + Be32(b), l, []); Last(i, b, l);
    case Cancel(i, b, l) => ReadThree(i, b, Be32(l)); ReadWritten(Be32(i) + Be32(b), l, []); Last(i, b, l);
    case Piece(i, b, d) => ReadThree(i, b, d);
    case _ =>
  }

  lemma UnderstoodSaid(f: Frame, m: Message)
    requires Interpret(f) == Some(m) && !m.Port?
    ensures Says(f, m)
  {
    hide Be32, ReadBe32;
    var p := f.payload;
    match m
    case Have(_) => WrittenRead(p, 0); assert p[0..4] == p;
    case Request(_, _, _) => WrittenRead(p, 0); WrittenRead(p, 4); WrittenRead(p, 8);
      assert p == p[0..4] + p[4..8] + p[8..12];
    case Cancel(_, _, _) => WrittenRead(p, 0); WrittenRead(p, 4); WrittenRead(p, 8);
      assert p == p[0..4] + p[4..8] + p[8..12];
    case Piece(_, _, d) => WrittenRead(p, 0); WrittenRead(p, 4);
      assert p == p[0..4] + p[4..8] + p[8..];
    case Extended(e, rest) => assert p == [e] + rest;
    case _ =>
  }

  lemma PortRead(f: Frame, p: nat)
    ensures Interpret(f) == Some(Port(p)) <==> Says(f, Port(p))
  {
    if f.Frame? && f.id == 9 && |f.payload| == 2 {
      var a: int, b: int := f.payload[0], f.payload[1];
      assert f.payload == [f.payload[0], f.payload[1]];
      assert ReadBe16(f.payload) == a * 0x100 + b;
    }
  }

  // ---------------------------------------------------------------- the state of the peer, from its messages

  /** Every Unchoke is followed by a Choke. */
  ghost predicate ChokedAfter(ms: seq<Message>) {
    forall i :: 0 <= i < |ms| && ms[i] == Unchoke ==> exists j :: i < j < |ms| && ms[j] == Choke
  }

  /** Some Interested is followed by no NotInterested. */
  ghost predicate InterestedAfter(ms: seq<Message>) {
    exists i :: 0 <= i < |ms| && ms[i] == Interested && forall j :: i < j < |ms| ==> ms[j] != NotInterested
  }

  /** The bitfield of the last Bitfield message, or None without one. */
  ghost predicate BitfieldAfter(ms: seq<Message>, bitfield: Option<bytes>) {
    match bitfield
    case None => forall i :: 0 <= i < |ms| ==> !ms[i].Bitfield?
    case Some(b) => exists i :: 0 <= i < |ms| && ms[i] == Bitfield(b) && forall j :: i < j < |ms| ==> !ms[j].Bitfield?
  }

  lemma ChokedSnoc(ms: seq<Message>, m: Message)
    ensures ChokedAfter(ms + [m]) <==> m == Choke || (m != Unchoke && ChokedAfter(ms))
  {
    var all := ms + [m];
    assert all[|ms|] == m;
    if m == Choke {
    } else if ChokedAfter(all) && m != Unchoke {
      forall i | 0 <= i < |ms| && ms[i] == Unchoke ensures exists j :: i < j < |ms| && ms[j] == Choke {
        assert all[i] == Unchoke;
        var j :| i < j < |all| && all[j] == Choke;
        assert ms[j] == Choke;
      }
    } else if ChokedAfter(ms) && m != Unchoke {
      forall i | 0 <= i < |all| && all[i] == Unchoke ensures exists j :: i < j < |all| && all[j] == Choke {
        assert ms[i] == Unchoke;
        var j :| i < j < |ms| && ms[j] == Choke;
        assert all[j] == Choke;
      }
    }
  }

  lemma InterestedSnoc(ms: seq<Message>, m: Message)
    ensures InterestedAfter(ms + [m]) <==> m == Interested || (m != NotInterested && InterestedAfter(ms))
  {
    var all := ms + [m];
    assert all[|ms|] == m;
    if InterestedAfter(all) && m != Interested {
      var i :| 0 <= i < |all| && all[i] == Interested && forall j :: i < j < |all| ==> all[j] != NotInterested;
      assert ms[i] == Interested;
      assert forall j :: i < j < |ms| ==> ms[j] == all[j];
    }
    if InterestedAfter(ms) && m != NotInterested {
      var i :| 0 <= i < |ms| && ms[i] == Interested && forall j :: i < j < |ms| ==> ms[j] != NotInterested;
      assert all[i] == Interested;
    }
  }

  lemma BitfieldSnoc(ms: seq<Message>, m: Message, bitfield: Option<bytes>)
    requires BitfieldAfter(ms, bitfield)
    ensures BitfieldAfter(ms + [m], if m.Bitfield? then Some(m.bitfield) else bitfield)
  {
    var all := ms + [m];
    assert all[|ms|] == m;
    if !m.Bitfield? && bitfield.Some? {
      var i :| 0 <= i < |ms| && ms[i] == Bitfield(bitfield.value) && forall j :: i < j < |ms| ==> !ms[j].Bitfield?;
      assert all[i] == ms[i];
    }
  }

  /** What a connection knows of its peer is what the last message of each kind said. */
  lemma {:induction false} StateIs(fs: seq<Frame>)
    ensures var s, ms := StateAfter(fs), Delivered(fs);
            && (s.choking <==> ChokedAfter(ms)) && (s.interested <==> InterestedAfter(ms))
            && BitfieldAfter(ms, s.bitfield)
  {
    if fs != [] {
      var front := fs[..|fs| - 1];
      StateIs(front);
      hide ChokedAfter, InterestedAfter, BitfieldAfter, Interpret;
      match Interpret(fs[|fs| - 1])
      case Some(m) =>
        ChokedSnoc(Delivered(front), m);
        InterestedSnoc(Delivered(front), m);
        BitfieldSnoc(Delivered(front), m, StateAfter(front).bitfield);
      case None =>
        assert Delivered(fs) == Delivered(front);
    }
  }

  ghost predicate AllButKeepAlives(es: seq<Frame>, fs: seq<Frame>) {
    forall f :: multiset(es)[f] == if f == KeepAlive then 0 else multiset(fs)[f]
  }

  /** The raw event comes once for every frame that is not a keep-alive, and reports what carries the same messages. */
  lemma EmittedIs(fs: seq<Frame>)
    ensures AllButKeepAlives(Emitted(fs), fs) && Delivered(Emitted(fs)) == Delivered(fs)
  {
    hide Emitted, Delivered;
    EmittedSame(fs);
    forall f ensures multiset(Emitted(fs))[f] == if f == KeepAlive then 0 else multiset(fs)[f] {
      EmittedCount(fs, f);
    }
  }

  lemma {:induction false} EmittedCount(fs: seq<Frame>, f: Frame)
    ensures multiset(Emitted(fs))[f] == if f == KeepAlive then 0 else multiset(fs)[f]
  {
    if fs != [] {
      var front, last := fs[..|fs| - 1], fs[|fs| - 1];
      EmittedCount(front, f);
      assert fs == front + [last];
      assert multiset(fs) == multiset(front) + multiset{last};
      assert last != KeepAlive ==> multiset(Emitted(fs)) == multiset(Emitted(front)) + multiset{last};
    }
  }

  lemma {:induction false} EmittedSame(fs: seq<Frame>)
    ensures Delivered(Emitted(fs)) == Delivered(fs)
  {
    if fs != [] {
      var front, last := fs[..|fs| - 1], fs[|fs| - 1];
      var e := Emitted(front);
      EmittedSame(front);
      if last == KeepAlive {
        assert Delivered(fs) == Delivered(front) && Emitted(fs) == e;
      } else {
        hide Interpret;
        assert (e + [last])[..|e|] == e;
      }
    }
  }

  // ---------------------------------------------------------------- handshake

  const PROTOCOL: bytes := Text("BitTorrent protocol")

  function Handshake(infoHash: bytes, peerId: bytes): bytes {
    [19] + PROTOCOL + [0, 0, 0, 0, 0, 0x10, 0, 0] + infoHash + peerId
  }

  predicate Accepted(hs: bytes, infoHash: bytes) {
    |hs| >= 68 && hs[0] == 19 && hs[1..20] == PROTOCOL && hs[28..48] == infoHash
  }

  /** A handshake as BEP 3 lays it out, with anything behind it. */
  ghost predicate HandshakeFor(hs: bytes, infoHash: bytes, reserved: bytes, peerId: bytes, rest: bytes) {
    && |reserved| == 8 && |infoHash| == 20 && |peerId| == 20
    && hs == [19] + Text("BitTorrent protocol") + reserved + infoHash + peerId + rest
  }

  /** Accepted is every handshake for the info hash, with any reserved bytes and any peer id, and nothing else. */
  lemma AcceptedIff(hs: bytes, infoHash: bytes)
    ensures Accepted(hs, infoHash) <==> exists r: bytes, p: bytes, rest: bytes :: HandshakeFor(hs, infoHash, r, p, rest)
  {
    if Accepted(hs, infoHash) {
      Taken(hs, infoHash);
    }
    if r: bytes, p: bytes, rest: bytes :| HandshakeFor(hs, infoHash, r, p, rest) {
      Made(hs, infoHash, r, p, rest);
    }
  }

  lemma Taken(hs: bytes, infoHash: bytes)
    requires Accepted(hs, infoHash)
    ensures HandshakeFor(hs, infoHash, hs[20..28], hs[48..68], hs[68..])
  {
    assert hs[..1] == [19];
    assert hs == hs[..1] + hs[1..20] + hs[20..28] + hs[28..48] + hs[48..68] + hs[68..];
  }

  lemma Made(hs: bytes, infoHash: bytes, r: bytes, p: bytes, rest: bytes)
    requires HandshakeFor(hs, infoHash, r, p, rest)
    ensures Accepted(hs, infoHash)
  {
    assert hs == [19] + (PROTOCOL + (r + (infoHash + (p + rest))));
    assert hs[1..20] == PROTOCOL;
    assert hs[28..48] == infoHash;
  }

  // ---------------------------------------------------------------- a received stream as a whole

  /** What a connection makes of everything received so far. */
  function FramesOf(stream: bytes, infoHash: bytes): (seq<Frame>, bytes) {
    if Accepted(stream, infoHash) then Frames(stream[68..]) else ([], [])
  }

  class PeerConnection {
    const infoHash: bytes
    const peerId: bytes
    var isConnected: bool
    var isHandshakeComplete: bool
    var remotePeerId: Option<bytes>
    var peerSupportsExtensions: bool
    var errorCount: nat
    var handshakeBuffer: bytes
    var messageBuffer: bytes
    var peer: PeerState
    var amChoking: bool
    var amInterested: bool
    // calls of onMessage and message events so far, bytes written to the socket so far
    var delivered: seq<Message>
    var emitted: seq<Frame>
    var sent: bytes
    ghost var received: bytes

    /** Everything the connection knows is determined by the bytes received, not by how they arrived. */
    ghost predicate Valid()
      reads this
    {
      && |infoHash| == |peerId| == 20
      && isHandshakeComplete == Accepted(received, infoHash)
      && isConnected == (|received| < 68 || Accepted(received, infoHash))
      && handshakeBuffer == (if isHandshakeComplete then [] else received)
      && var (fs, left) := FramesOf(received, infoHash);
      && messageBuffer == left && delivered == Delivered(fs) && emitted == Emitted(fs) && peer == StateAfter(fs)
      && (isHandshakeComplete ==> remotePeerId == Some(received[48..68]))
      && (isHandshakeComplete ==> peerSupportsExtensions == (received[25] / 16 % 2 == 1))
    }

    /** The code throws unless both have 20 bytes. */
    constructor (infoHash: bytes, peerId: bytes)
      requires |infoHash| == |peerId| == 20
      ensures Valid() && received == [] && sent == [] && isConnected
      ensures this.infoHash == infoHash && this.peerId == peerId && amChoking && !amInterested
    {
      this.infoHash, this.peerId := infoHash, peerId;
      isConnected, isHandshakeComplete, remotePeerId, peerSupportsExtensions := true, false, None, false;
      errorCount, handshakeBuffer, messageBuffer, peer := 0, [], [], PeerState(true, false, None);
      amChoking, amInterested := true, false;
      delivered, emitted, sent := [], [], [];
      received := [];
    }

    /** A data event. */
    method HandleData(data: bytes)
      requires Valid()
      modifies this
      ensures Valid() && received == old(received) + data && sent == old(sent)
      ensures amChoking == old(amChoking) && amInterested == old(amInterested)
    {
      hide Frames, Delivered, Emitted, StateAfter;
      AcceptedPrefix(received, data, infoHash);
      NothingYet();
      if !isHandshakeComplete {
        handshakeBuffer := handshakeBuffer + data;
        received := received + data;
        if |handshakeBuffer| >= 68 {
          ProcessHandshake();
        }
      } else {
        FramesAppend(received[68..], data);
        assert (received + data)[68..] == received[68..] + data;
        ghost var fs := Frames(received[68..]).0;
        messageBuffer := messageBuffer + data;
        received := received + data;
        ProcessMessages(fs);
        assert received[48..68] == old(received)[48..68] && received[25] == old(received)[25];
      }
    }

    /** Takes complete messages off the front of the buffer; `fs` are the frames taken before. */
    method ProcessMessages(ghost fs: seq<Frame>)
      requires delivered == Delivered(fs) && emitted == Emitted(fs) && peer == StateAfter(fs)
      modifies this`messageBuffer, this`delivered, this`emitted, this`peer
      ensures var (more, left) := Frames(old(messageBuffer));
              && messageBuffer == left && delivered == Delivered(fs + more) && emitted == Emitted(fs + more)
              && peer == StateAfter(fs + more)
    {
      ghost var all := fs + Frames(messageBuffer).0;
      ghost var done := fs;
      while |messageBuffer| >= 4
        invariant all == done + Frames(messageBuffer).0
        invariant Frames(messageBuffer).1 == Frames(old(messageBuffer)).1
        invariant delivered == Delivered(done) && emitted == Emitted(done) && peer == StateAfter(done)
        decreases |messageBuffer|
      {
        var length: int := ReadBe32(messageBuffer, 0);
        if |messageBuffer| < 4 + length { break; }
        ghost var more := Frames(messageBuffer).0;
        var body := messageBuffer[4..4 + length];
        messageBuffer := messageBuffer[4 + length..];
        HandleMessage(FrameOf(body), done);
        done := done + [FrameOf(body)];
        assert more == [FrameOf(body)] + more[1..];
        assert all == done + more[1..];
      }
      assert done + [] == done;
    }

    method HandleMessage(f: Frame, ghost done: seq<Frame>)
      requires delivered == Delivered(done) && emitted == Emitted(done) && peer == StateAfter(done)
      modifies this`delivered, this`emitted, this`peer
      ensures delivered == Delivered(done + [f]) && emitted == Emitted(done + [f]) && peer == StateAfter(done + [f])
    {
      assert (done + [f])[..|done|] == done;
      if f == KeepAlive { return; }
      var m := Interpret(f);
      peer := Apply(peer, m);
      if m.Some? { delivered := delivered + [m.value]; }
      emitted := emitted + [f];
    }

    method ProcessHandshake()
      requires handshakeBuffer == received && |received| >= 68 && !isHandshakeComplete && |infoHash| == |peerId| == 20
      requires Accepted(received, infoHash) ==> isConnected
      requires messageBuffer == [] && delivered == [] && emitted == [] && peer == PeerState(true, false, None)
      modifies this
      ensures Valid() && received == old(received) && sent == old(sent)
      ensures amChoking == old(amChoking) && amInterested == old(amInterested)
    {
      hide Frames, Delivered, Emitted, StateAfter, Interpret;
      var handshake := handshakeBuffer[..68];
      HandshakeFields(received, handshake);
      NothingYet();
      if handshake[0] != 19 || handshake[1..20] != PROTOCOL || handshake[28..48] != infoHash {
        HandleError();
        return;
      }
      var reserved := handshake[20..28];
      peerSupportsExtensions := reserved[5] / 16 % 2 == 1;
      remotePeerId := Some(handshake[48..68]);
      isHandshakeComplete := true;
      var remaining := handshakeBuffer[68..];
      handshakeBuffer := [];
      if |remaining| > 0 {
        messageBuffer := remaining;
        ProcessMessages([]);
        assert [] + Frames(remaining).0 == Frames(remaining).0;
      }
    }

    /** Every handshake error ends in a disconnect. */
    method HandleError()
      modifies this`errorCount, this`isConnected, this`isHandshakeComplete
      ensures !isConnected && !isHandshakeComplete && errorCount == old(errorCount) + 1
    {
      errorCount := errorCount + 1;
      isConnected, isHandshakeComplete := false, false;
    }

    // -------------------------------------------------------------- sending

    /** Fills a buffer of 68 bytes field by field; what goes out is accepted by a peer with the same info hash. */
    method SendHandshake()
      requires Valid()
      modifies this`sent
      ensures Valid() && sent == old(sent) + Handshake(infoHash, peerId)
      ensures Accepted(sent[|old(sent)|..], infoHash) && sent[|old(sent)|..][48..68] == peerId
    {
      var handshake := new byte[68](_ => 0);
      var offset := 0;
      handshake[offset] := 19;
      offset := offset + 1;
      CopyTo(handshake, offset, PROTOCOL);
      offset := offset + 19;
      assert handshake[..offset] == [19] + PROTOCOL;
      forall i | offset <= i < offset + 8 { handshake[i] := 0; }
      handshake[offset + 5] := 0x10;
      offset := offset + 8;
      assert handshake[..offset] == [19] + PROTOCOL + [0, 0, 0, 0, 0, 0x10, 0, 0];
      CopyTo(handshake, offset, infoHash);
      offset := offset + 20;
      assert handshake[..offset] == [19] + PROTOCOL + [0, 0, 0, 0, 0, 0x10, 0, 0] + infoHash;
      CopyTo(handshake, offset, peerId);
      assert handshake[..] == Handshake(infoHash, peerId);
      sent := sent + handshake[..];
      HandshakeAccepted(infoHash, peerId, []);
      assert sent[|old(sent)|..] == Handshake(infoHash, peerId) + [];
    }

    /** Buffer.copy into a larger buffer. */
    method CopyTo(target: array<byte>, at: nat, source: bytes)
      requires at + |source| <= target.Length
      modifies target
      ensures target[..] == old(target[..at]) + source + old(target[at + |source|..])
    {
      for i := 0 to |source|
        invariant target[..at + i] == old(target[..at]) + source[..i]
        invariant target[at + i..] == old(target[at + i..])
        modifies target
      {
        target[at + i] := source[i];
        assert target[..at + i + 1] == target[..at + i] + [source[i]];
        assert target[at + i + 1..] == old(target[at + i..])[1..];
      }
      assert source[..|source|] == source;
      assert target[..] == target[..at + |source|] + target[at + |source|..];
    }

    method SendMessage(id: byte, payload: bytes) returns (ok: bool)
      requires |payload| + 1 < 0x1_0000_0000
      modifies this`sent
      ensures ok == (isConnected && isHandshakeComplete)
      ensures sent == if ok then old(sent) + Packet(Frame(id, payload)) else old(sent)
    {
      ok := isConnected && isHandshakeComplete;
      if ok {
        var message := Be32(1 + |payload|) + [id];
        if |payload| > 0 { message := message + payload; }
        assert message == Packet(Frame(id, payload));
        sent := sent + message;
      }
    }

    method SendKeepAlive() returns (ok: bool)
      modifies this`sent
      ensures ok == (isConnected && isHandshakeComplete)
      ensures sent == if ok then old(sent) + Packet(KeepAlive) else old(sent)
    {
      ok := isConnected && isHandshakeComplete;
      if ok { sent := sent + Be32(0); }
    }

    /** The typed senders; `amChoking` and `amInterested` follow the messages that were really sent. */
    method Send(m: Message) returns (ok: bool)
      requires Sendable(m)
      modifies this`sent, this`amChoking, this`amInterested
      ensures ok == (isConnected && isHandshakeComplete)
      ensures sent == if ok then old(sent) + Packet(Wire(m)) else old(sent)
      ensures amChoking == if ok && m.Choke? then true else if ok && m.Unchoke? then false else old(amChoking)
      ensures amInterested
           == if ok && m.Interested? then true else if ok && m.NotInterested? then false else old(amInterested)
    {
      match m
      case Choke => ok := SendMessage(0, []); if ok { amChoking := true; }
      case Unchoke => ok := SendMessage(1, []); if ok { amChoking := false; }
      case Interested => ok := SendMessage(2, []); if ok { amInterested := true; }
      case NotInterested => ok := SendMessage(3, []); if ok { amInterested := false; }
      case Have(i) => ok := SendMessage(4, Be32(i));
      case Bitfield(b) => ok := SendMessage(5, b);
      case Request(i, b, l) => ok := SendMessage(6, Be32(i) + Be32(b) + Be32(l));
      case Piece(i, b, d) => ok := SendMessage(7, Be32(i) + Be32(b) + d);
      case Cancel(i, b, l) => ok := SendMessage(8, Be32(i) + Be32(b) + Be32(l));
    }
  }

  lemma HandshakeFields(received: bytes, handshake: bytes)
    requires |received| >= 68 && handshake == received[..68]
    ensures handshake[0] == received[0] && handshake[1..20] == received[1..20]
    ensures handshake[28..48] == received[28..48] && handshake[48..68] == received[48..68]
    ensures handshake[20..28][5] == received[25]
  {
  }

  lemma NothingYet()
    ensures Frames([]) == ([], []) && Delivered([]) == [] && Emitted([]) == []
    ensures StateAfter([]) == PeerState(true, false, None)
  {
  }

  lemma AcceptedPrefix(stream: bytes, more: bytes, infoHash: bytes)
    ensures |stream| >= 68 ==> Accepted(stream + more, infoHash) == Accepted(stream, infoHash)
  {
    if |stream| >= 68 {
      assert (stream + more)[1..20] == stream[1..20] && (stream + more)[28..48] == stream[28..48];
    }
  }

  /** A stream delivered in any chunks: the connection ends up as if it had come at once. */
  method Receive(c: PeerConnection, chunks: seq<bytes>)
    requires c.Valid() && c.received == []
    modifies c
    ensures c.Valid() && c.received == Flatten(chunks) && c.sent == old(c.sent)
    ensures c.amChoking == old(c.amChoking) && c.amInterested == old(c.amInterested)
    ensures c.delivered == Delivered(FramesOf(Flatten(chunks), c.infoHash).0)
  {
    for i := 0 to |chunks|
      invariant c.Valid() && c.received == Flatten(chunks[..i]) && c.sent == old(c.sent)
      invariant c.amChoking == old(c.amChoking) && c.amInterested == old(c.amInterested)
    {
      c.HandleData(chunks[i]);
      assert chunks[..i + 1] == chunks[..i] + [chunks[i]];
      FlattenSnoc(chunks[..i], chunks[i]);
    }
    assert chunks[..|chunks|] == chunks;
  }

  // ---------------------------------------------------------------- what is sent is what is received

  function Packet(f: Frame): bytes {
    match f
    case KeepAlive => Be32(0)
    case Frame(id, payload) => if |payload| + 1 < 0x1_0000_0000 then Be32(1 + |payload|) + [id] + payload else []
  }

  /** The messages there are senders for, with payloads that a length prefix can announce. */
  predicate Sendable(m: Message) {
    match m
    case Port(_) => false
    case Extended(_, _) => false
    case Bitfield(b) => |b| + 1 < 0x1_0000_0000
    case Piece(_, _, d) => |d| + 9 < 0x1_0000_0000
    case _ => true
  }

  function Wire(m: Message): (f: Frame)
    requires Sendable(m)
    ensures f.Frame? && |f.payload| + 1 < 0x1_0000_0000
  {
    match m
    case Choke => Frame(0, [])
    case Unchoke => Frame(1, [])
    case Interested => Frame(2, [])
    case NotInterested => Frame(3, [])
    case Have(i) => Frame(4, Be32(i))
    case Bitfield(b) => Frame(5, b)
    case Request(i, b, l) => Frame(6, Be32(i) + Be32(b) + Be32(l))
    case Piece(i, b, d) => Frame(7, Be32(i) + Be32(b) + d)
    case Cancel(i, b, l) => Frame(8, Be32(i) + Be32(b) + Be32(l))
  }

  lemma ReadThree(a: u32, b: u32, rest: bytes)
    ensures var p := Be32(a) + Be32(b) + rest;
            ReadBe32(p, 0) == a && ReadBe32(p, 4) == b && p[8..] == rest
  {
    var p := Be32(a) + Be32(b) + rest;
    ReadWritten([], a, Be32(b) + rest);
    assert [] + Be32(a) + (Be32(b) + rest) == p;
    ReadWritten(Be32(a), b, rest);
  }

  /** Each sender's message is understood as what it was. */
  lemma InterpretWire(m: Message)
    requires Sendable(m)
    ensures Interpret(Wire(m)) == Some(m)
  {
    assert Says(Wire(m), m);
    SaidUnderstood(Wire(m), m);
  }

  lemma Last(i: u32, b: u32, l: u32)
    ensures Be32(i) + Be32(b) + Be32(l) + [] == Be32(i) + Be32(b) + Be32(l)
  {
  }

  function Packets(fs: seq<Frame>): bytes {
    if fs == [] then [] else Packet(fs[0]) + Packets(fs[1..])
  }

  predicate Announceable(f: Frame) {
    f.KeepAlive? || |f.payload| + 1 < 0x1_0000_0000
  }

  lemma FramesOfPacket(f: Frame, rest: bytes)
    requires Announceable(f)
    ensures Frames(Packet(f) + rest) == ([f] + Frames(rest).0, Frames(rest).1)
  {
    hide Be32, ReadBe32;
    var body := match f case KeepAlive => [] case Frame(id, payload) => [id] + payload;
    var buf := Be32(|body|) + body + rest;
    assert Packet(f) + rest == buf;
    ReadWritten([], |body|, body + rest);
    assert [] + Be32(|body|) + (body + rest) == buf;
    assert buf[4..4 + |body|] == body && buf[4 + |body|..] == rest;
    assert FrameOf(body) == f;
  }

  lemma {:induction false} FramesOfPackets(fs: seq<Frame>)
    requires forall i :: 0 <= i < |fs| ==> Announceable(fs[i])
    ensures Frames(Packets(fs)) == (fs, [])
  {
    if fs != [] {
      FramesOfPacket(fs[0], Packets(fs[1..]));
      FramesOfPackets(fs[1..]);
      assert [fs[0]] + fs[1..] == fs;
    }
  }

  /** The packets as BEP 3 lays them out: numbers with the most significant byte first. */
  lemma WireFormat(i: u32, b: u32, l: u32, data: bytes)
    requires |data| + 9 < 0x1_0000_0000
    ensures Be32(0x0102_0304) == [1, 2, 3, 4] && Packet(KeepAlive) == [0, 0, 0, 0]
    ensures Packet(Wire(Choke)) == [0, 0, 0, 1, 0] && Packet(Wire(Unchoke)) == [0, 0, 0, 1, 1]
    ensures Packet(Wire(Interested)) == [0, 0, 0, 1, 2] && Packet(Wire(NotInterested)) == [0, 0, 0, 1, 3]
    ensures Packet(Wire(Have(i))) == [0, 0, 0, 5, 4] + Be32(i)
    ensures Packet(Wire(Bitfield(data))) == Be32(|data| + 1) + [5] + data
    ensures Packet(Wire(Request(i, b, l))) == [0, 0, 0, 13, 6] + (Be32(i) + Be32(b) + Be32(l))
    ensures Packet(Wire(Piece(i, b, data))) == Be32(|data| + 9) + [7] + (Be32(i) + Be32(b) + data)
    ensures Packet(Wire(Cancel(i, b, l))) == [0, 0, 0, 13, 8] + (Be32(i) + Be32(b) + Be32(l))
  {
    assert Be32(0) == [0, 0, 0, 0] && Be32(1) == [0, 0, 0, 1] && Be32(5) == [0, 0, 0, 5] && Be32(13) == [0, 0, 0, 13];
    assert Be32(0x0102_0304) == [1, 2, 3, 4];
    hide Be32;
  }

  datatype Outgoing = SendAlive | SendMsg(m: Message)

  predicate CanSend(o: Outgoing) {
    o.SendMsg? ==> Sendable(o.m)
  }

  function FrameSent(o: Outgoing): Frame
    requires CanSend(o)
  {
    match o case SendAlive => KeepAlive case SendMsg(m) => Wire(m)
  }

  /** The bytes written by a run of sends, in order. */
  function Stream(os: seq<Outgoing>): bytes
    requires forall i :: 0 <= i < |os| ==> CanSend(os[i])
  {
    if os == [] then [] else Packet(FrameSent(os[0])) + Stream(os[1..])
  }

  function Messages(os: seq<Outgoing>): seq<Message> {
    if os == [] then [] else Messages(os[..|os| - 1]) + match os[|os| - 1] case SendAlive => [] case SendMsg(m) => [m]
  }

  function FramesSent(os: seq<Outgoing>): (r: seq<Frame>)
    requires forall i :: 0 <= i < |os| ==> CanSend(os[i])
    ensures |r| == |os| && forall i :: 0 <= i < |os| ==> r[i] == FrameSent(os[i])
  {
    seq(|os|, i requires 0 <= i < |os| => FrameSent(os[i]))
  }

  lemma {:induction false} StreamIsPackets(os: seq<Outgoing>)
    requires forall i :: 0 <= i < |os| ==> CanSend(os[i])
    ensures Stream(os) == Packets(FramesSent(os))
  {
    if os != [] {
      StreamIsPackets(os[1..]);
      assert FramesSent(os)[1..] == FramesSent(os[1..]);
    }
  }

  lemma {:induction false} DeliveredIsMessages(os: seq<Outgoing>)
    requires forall i :: 0 <= i < |os| ==> CanSend(os[i])
    ensures Delivered(FramesSent(os)) == Messages(os)
  {
    hide Wire, Interpret;
    if os != [] {
      var front, o := os[..|os| - 1], os[|os| - 1];
      DeliveredIsMessages(front);
      assert FramesSent(os)[..|os| - 1] == FramesSent(front);
      assert CanSend(o);
      match o
      case SendAlive => KeepAliveSilent();
      case SendMsg(m) => InterpretWire(m);
    }
  }

  lemma KeepAliveSilent()
    ensures Interpret(KeepAlive) == None
  {
  }

  lemma HandshakeAccepted(infoHash: bytes, peerId: bytes, rest: bytes)
    requires |infoHash| == 20 && |peerId| == 20
    ensures var s := Handshake(infoHash, peerId) + rest;
            Accepted(s, infoHash) && s[68..] == rest && s[48..68] == peerId && s[25] == 0x10
  {
    var s := Handshake(infoHash, peerId) + rest;
    var reserved: bytes := [0, 0, 0, 0, 0, 0x10, 0, 0];
    assert s == [19] + (PROTOCOL + (reserved + (infoHash + (peerId + rest))));
    assert s[1..20] == PROTOCOL;
    assert s[28..48] == infoHash;
    assert s[48..68] == peerId;
    assert s[25] == reserved[5];
  }

  /** The frames of a handshake with any sends behind it are those of the sends, and nothing is left over. */
  lemma StreamIsReceived(infoHash: bytes, peerId: bytes, os: seq<Outgoing>)
    requires |infoHash| == 20 && |peerId| == 20 && forall i :: 0 <= i < |os| ==> CanSend(os[i])
    ensures var (fs, left) := FramesOf(Handshake(infoHash, peerId) + Stream(os), infoHash);
            Delivered(fs) == Messages(os) && fs == FramesSent(os) && left == []
  {
    hide Handshake, Accepted, Stream, Packets, FramesSent, Frames, Delivered, Messages;
    HandshakeAccepted(infoHash, peerId, Stream(os));
    StreamIsPackets(os);
    FramesOfPackets(FramesSent(os));
    DeliveredIsMessages(os);
  }

  lemma {:induction false} StreamSnoc(os: seq<Outgoing>, o: Outgoing)
    requires CanSend(o) && forall i :: 0 <= i < |os| ==> CanSend(os[i])
    ensures Stream(os + [o]) == Stream(os) + Packet(FrameSent(o))
  {
    hide Packet;
    if os == [] {
      assert [o][1..] == [] && [] + [o] == [o];
      assert Packet(FrameSent(o)) + [] == [] + Packet(FrameSent(o));
    } else {
      StreamSnoc(os[1..], o);
      assert (os + [o])[1..] == os[1..] + [o];
      assert Packet(FrameSent(os[0])) + (Stream(os[1..]) + Packet(FrameSent(o)))
          == (Packet(FrameSent(os[0])) + Stream(os[1..])) + Packet(FrameSent(o));
    }
  }

  /** How many of the sends are messages. */
  ghost function MessageCount(os: seq<Outgoing>): nat {
    |set i | 0 <= i < |os| && os[i].SendMsg?|
  }

  lemma CountSnoc(os: seq<Outgoing>, o: Outgoing)
    ensures MessageCount(os + [o]) == MessageCount(os) + if o.SendMsg? then 1 else 0
  {
    var all := os + [o];
    var before := set i | 0 <= i < |os| && os[i].SendMsg?;
    assert (set i | 0 <= i < |all| && all[i].SendMsg?) == before + if o.SendMsg? then {|os|} else {};
  }

  /** Every message sent stands behind as many others as were sent before it, and there is nothing else. */
  lemma {:induction false} MessagesAre(os: seq<Outgoing>)
    ensures |Messages(os)| == MessageCount(os)
    ensures forall i :: 0 <= i < |os| && os[i].SendMsg? ==>
              MessageCount(os[..i]) < |Messages(os)| && Messages(os)[MessageCount(os[..i])] == os[i].m
  {
    if os != [] {
      var n := |os| - 1;
      var front := os[..n];
      MessagesAre(front);
      assert os == front + [os[n]];
      CountSnoc(front, os[n]);
      hide MessageCount;
      assert forall i :: 0 <= i < n ==> front[..i] == os[..i] && front[i] == os[i];
    }
  }

  /** A connection that has its peer's handshake makes a run of sends; its flags follow the messages. */
  method SendAll(c: PeerConnection, os: seq<Outgoing>)
    requires c.Valid() && c.isHandshakeComplete && forall i :: 0 <= i < |os| ==> CanSend(os[i])
    modifies c`sent, c`amChoking, c`amInterested
    ensures c.Valid() && c.sent == old(c.sent) + Stream(os)
    ensures old(c.amChoking) ==> (c.amChoking <==> ChokedAfter(Messages(os)))
    ensures !old(c.amInterested) ==> (c.amInterested <==> InterestedAfter(Messages(os)))
  {
    hide Wire, Packet, Sendable, Stream, ChokedAfter, InterestedAfter, Messages;
    NothingSent();
    for i := 0 to |os|
      invariant c.Valid() && c.isHandshakeComplete && c.sent == old(c.sent) + Stream(os[..i])
      invariant old(c.amChoking) ==> (c.amChoking <==> ChokedAfter(Messages(os[..i])))
      invariant !old(c.amInterested) ==> (c.amInterested <==> InterestedAfter(Messages(os[..i])))
      modifies c`sent, c`amChoking, c`amInterested
    {
      StreamSnoc(os[..i], os[i]);
      assert os[..i + 1] == os[..i] + [os[i]];
      FlagsSnoc(os[..i], os[i]);
      match os[i]
      case SendAlive => var ok := c.SendKeepAlive();
      case SendMsg(m) => var ok := c.Send(m);
    }
    assert os[..|os|] == os;
  }

  lemma NothingSent()
    ensures Stream([]) == [] && ChokedAfter(Messages([])) && !InterestedAfter(Messages([]))
  {
  }

  lemma FlagsSnoc(os: seq<Outgoing>, o: Outgoing)
    ensures ChokedAfter(Messages(os + [o]))
       <==> o == SendMsg(Choke) || (o != SendMsg(Unchoke) && ChokedAfter(Messages(os)))
    ensures InterestedAfter(Messages(os + [o]))
       <==> o == SendMsg(Interested) || (o != SendMsg(NotInterested) && InterestedAfter(Messages(os)))
  {
    hide ChokedAfter, InterestedAfter;
    assert (os + [o])[..|os|] == os;
    if o.SendMsg? {
      ChokedSnoc(Messages(os), o.m);
      InterestedSnoc(Messages(os), o.m);
    } else {
      assert Messages(os) + [] == Messages(os);
    }
  }

  /**
   Two connections, from end to end: one sends its handshake, gets the other's, and makes any run of sends. However its
   bytes are cut into data events on the way, the other one delivers exactly the messages sent, in order, its buffer is
   empty, and what it knows of its peer is what the peer knows of itself.
   */
  method Conversation(sender: PeerConnection, receiver: PeerConnection, os: seq<Outgoing>, cut: bytes -> seq<bytes>)
    requires sender != receiver && sender.Valid() && receiver.Valid() && sender.infoHash == receiver.infoHash
    requires sender.sent == sender.received == receiver.sent == receiver.received == []
    requires sender.amChoking && !sender.amInterested
    requires (forall i :: 0 <= i < |os| ==> CanSend(os[i])) && forall s :: Flatten(cut(s)) == s
    modifies sender, receiver
    ensures receiver.Valid() && receiver.isHandshakeComplete && receiver.remotePeerId == Some(sender.peerId)
    ensures receiver.delivered == Messages(os) && receiver.messageBuffer == []
    ensures AllButKeepAlives(receiver.emitted, FramesSent(os))
    ensures receiver.peer.choking == sender.amChoking && receiver.peer.interested == sender.amInterested
    ensures BitfieldAfter(Messages(os), receiver.peer.bitfield) && receiver.peerSupportsExtensions
  {
    hide Stream, Handshake, Messages, Accepted, FramesSent, ChokedAfter, InterestedAfter, BitfieldAfter;
    hide PeerConnection.Valid, AllButKeepAlives;
    sender.SendHandshake();
    receiver.SendHandshake();
    assert [] + Handshake(sender.infoHash, sender.peerId) == Handshake(sender.infoHash, sender.peerId);
    assert [] + Handshake(receiver.infoHash, receiver.peerId) == Handshake(receiver.infoHash, receiver.peerId);
    assert Handshake(receiver.infoHash, receiver.peerId) + [] == Handshake(receiver.infoHash, receiver.peerId);
    Receive(sender, cut(receiver.sent));
    NothingSent();
    Understood(sender, receiver.peerId, []);
    SendAll(sender, os);
    Receive(receiver, cut(sender.sent));
    Understood(receiver, sender.peerId, os);
  }

  /** What a connection has made of a handshake with any sends behind it. */
  lemma Understood(c: PeerConnection, peerId: bytes, os: seq<Outgoing>)
    requires c.Valid() && |peerId| == 20 && forall i :: 0 <= i < |os| ==> CanSend(os[i])
    requires c.received == Handshake(c.infoHash, peerId) + Stream(os)
    ensures c.isHandshakeComplete && c.remotePeerId == Some(peerId) && c.peerSupportsExtensions
    ensures c.delivered == Messages(os) && c.messageBuffer == []
    ensures AllButKeepAlives(c.emitted, FramesSent(os))
    ensures c.peer.choking <==> ChokedAfter(Messages(os))
    ensures c.peer.interested <==> InterestedAfter(Messages(os))
    ensures BitfieldAfter(Messages(os), c.peer.bitfield)
  {
    hide *;
    Sizes(c);
    HandshakeAccepted(c.infoHash, peerId, Stream(os));
    HandshakeKnown(c, peerId);
    var fs := FramesOf(c.received, c.infoHash).0;
    StreamIsReceived(c.infoHash, peerId, os);
    assert fs == FramesSent(os) && Delivered(fs) == Messages(os);
    FramesKnown(c, fs);
    StateIs(fs);
    EmittedIs(fs);
  }

  lemma Sizes(c: PeerConnection)
    requires c.Valid()
    ensures |c.infoHash| == 20
  {
    hide FramesOf, Delivered, Emitted, StateAfter, Accepted;
  }

  lemma HandshakeKnown(c: PeerConnection, peerId: bytes)
    requires c.Valid() && Accepted(c.received, c.infoHash) && c.received[48..68] == peerId && c.received[25] == 0x10
    ensures c.isHandshakeComplete && c.remotePeerId == Some(peerId) && c.peerSupportsExtensions
  {
    hide FramesOf, Delivered, Emitted, StateAfter;
  }

  lemma FramesKnown(c: PeerConnection, fs: seq<Frame>)
    requires c.Valid() && FramesOf(c.received, c.infoHash) == (fs, [])
    ensures c.messageBuffer == [] && c.delivered == Delivered(fs) && c.emitted == Emitted(fs)
    ensures c.peer == StateAfter(fs)
  {
    hide FramesOf, Delivered, Emitted, StateAfter, Accepted;
  }
}
