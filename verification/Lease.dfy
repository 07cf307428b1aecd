/**
 Leases on transfers, kept in Redis: one key for the owner and one for its fencing token. Each Lua script is one atomic
 step. Keys expire, so the clock is part of the state; ttls are positive.
 */
module Lease {
  import opened Bytes

  type Node = string

  /** A value in Redis and the moment from which it is gone. */
  datatype Cell<+V> = Cell(value: V, expiresAt: nat)

  /** The two keys of one transfer; an expired cell may still be there. */
  datatype Keys = Keys(now: nat, lease: Option<Cell<Node>>, token: Option<Cell<int>>)

  /** GET at the present time. */
  function Read<V>(c: Option<Cell<V>>, now: nat): Option<V> {
    if c.Some? && now < c.value.expiresAt then Some(c.value.value) else None
  }

  function Owner(k: Keys): Option<Node> {
    Read(k.lease, k.now)
  }

  function Token(k: Keys): Option<int> {
    Read(k.token, k.now)
  }

  /** EXPIRE does nothing to a missing key. */
  function Expire<V>(c: Option<Cell<V>>, now: nat, ttl: nat): Option<Cell<V>> {
    if Read(c, now).Some? then Some(Cell(c.value.value, now + ttl)) else None
  }

  function Refreshed(k: Keys, ttl: nat): Keys {
    k.(lease := Expire(k.lease, k.now, ttl), token := Expire(k.token, k.now, ttl))
  }

  /** The script of acquireLease. INCR counts a missing key as 0. */
  function Acquire(k: Keys, node: Node, ttl: nat): Keys {
    if Owner(k).None? then
      var token := if Token(k).Some? then Token(k).value + 1 else 1;
      Keys(k.now, Some(Cell(node, k.now + ttl)), Some(Cell(token, k.now + ttl)))
    else if Owner(k) == Some(node) then Refreshed(k, ttl)
    else k
  }

  /** The script of renewLease. */
  function Renew(k: Keys, node: Node, ttl: nat): Keys {
    if Owner(k) == Some(node) then Refreshed(k, ttl) else k
  }

  /** The script of releaseLease. */
  function Release(k: Keys, node: Node): Keys {
    if Owner(k) == Some(node) then k.(lease := None, token := None) else k
  }

  /** What acquireLease and renewLease return to a node that holds the lease afterwards; a missing token would be 0. */
  function Granted(after: Keys, node: Node): Option<int> {
    if Owner(after) != Some(node) then None
    else if Token(after).Some? then Token(after)
    else Some(0)
  }

  predicate ValidateToken(k: Keys, token: int) {
    Token(k) == Some(token)
  }

  datatype Op =
    | OpAcquire(node: Node, ttl: nat)
    | OpRenew(node: Node, ttl: nat)
    | OpRelease(node: Node)
    | Tick(elapsed: nat)

  predicate OpOk(op: Op) {
    (op.OpAcquire? || op.OpRenew?) ==> op.ttl > 0
  }

  function Step(k: Keys, op: Op): Keys {
    match op
    case OpAcquire(node, ttl) => Acquire(k, node, ttl)
    case OpRenew(node, ttl) => Renew(k, node, ttl)
    case OpRelease(node) => Release(k, node)
    case Tick(elapsed) => k.(now := k.now + elapsed)
  }

  function Run(ops: seq<Op>): Keys {
    if ops == [] then Keys(0, None, None) else Step(Run(ops[..|ops| - 1]), ops[|ops| - 1])
  }

  predicate AllOk(ops: seq<Op>) {
    forall i :: 0 <= i < |ops| ==> OpOk(ops[i])
  }

  // ---------------------------------------------------------------- the two keys live together

  /** Both cells are there or neither, they expire together, and the token is 1. */
  predicate Paired(k: Keys) {
    && (k.lease.Some? <==> k.token.Some?)
    && (k.lease.Some? ==> k.lease.value.expiresAt == k.token.value.expiresAt && k.token.value.value == 1)
  }

  lemma StepPaired(k: Keys, op: Op)
    requires Paired(k)
    ensures Paired(Step(k, op))
  {
  }

  /** In every run the lease key and the token key live together, with the same expiry. */
  lemma {:induction false} EveryRunPaired(ops: seq<Op>)
    ensures Paired(Run(ops))
    ensures Owner(Run(ops)).Some? <==> Token(Run(ops)).Some?
  {
    if ops != [] {
      EveryRunPaired(ops[..|ops| - 1]);
      StepPaired(Run(ops[..|ops| - 1]), ops[|ops| - 1]);
    }
  }

  /** The script counts: if a token outlived its lease, the next owner would get the next number. */
  lemma TokenCounts(k: Keys, node: Node, ttl: nat)
    requires Owner(k).None? && ttl > 0
    ensures Granted(Acquire(k, node, ttl), node) == Some((if Token(k).Some? then Token(k).value else 0) + 1)
  {
  }

  // ---------------------------------------------------------------- how ownership passes on

  /** The moment and the ttl of the last acquire or renew that succeeded for the node. */
  function LastTouch(ops: seq<Op>, node: Node): Option<(nat, nat)> {
    if ops == [] then None
    else
      var front, op := ops[..|ops| - 1], ops[|ops| - 1];
      if (op.OpAcquire? || op.OpRenew?) && op.node == node && Owner(Run(ops)) == Some(node) then
        Some((Run(front).now, op.ttl))
      else LastTouch(front, node)
  }

  /** The lease expires exactly one ttl after its owner's last acquire or renew. */
  lemma {:induction false} ExpiryIs(ops: seq<Op>, node: Node)
    requires AllOk(ops) && Owner(Run(ops)) == Some(node)
    ensures LastTouch(ops, node).Some?
    ensures Run(ops).lease.value.expiresAt == LastTouch(ops, node).value.0 + LastTouch(ops, node).value.1
  {
    var front, op := ops[..|ops| - 1], ops[|ops| - 1];
    assert OpOk(op);
    if Owner(Run(front)) == Some(node) {
      ExpiryIs(front, node);
    }
  }

  /** While its owner does not release it, a lease is lost by the clock alone. */
  lemma OwnerStays(k: Keys, op: Op, node: Node)
    requires OpOk(op) && Owner(k) == Some(node) && op != OpRelease(node)
    ensures Owner(Step(k, op)) == Some(node) || (op.Tick? && k.now + op.elapsed >= k.lease.value.expiresAt)
  {
  }

  /** A full ttl has gone by at the end of the run since the node last acquired or renewed. */
  predicate FullTtlOver(ops: seq<Op>, node: Node) {
    LastTouch(ops, node).Some? && Run(ops).now >= LastTouch(ops, node).value.0 + LastTouch(ops, node).value.1
  }

  /**
   When a lease that A held is later not A's any more, either A released it in between, or there was a moment at which
   a full ttl had gone by without an acquire or a renew of A.
   */
  lemma {:induction false} HandOver(before: seq<Op>, later: seq<Op>, a: Node) returns (m: nat)
    requires AllOk(before + later)
    requires Owner(Run(before)) == Some(a) && Owner(Run(before + later)) != Some(a)
    requires OpRelease(a) !in later
    ensures m <= |later| && FullTtlOver(before + later[..m], a)
    decreases |later|
  {
    assert before + [] == before;
    if later == [] {
      assert false;
    } else {
      hide Step;
      var front, op := later[..|later| - 1], later[|later| - 1];
      assert (before + later)[..|before + later| - 1] == before + front;
      assert AllOk(before + front);
      assert OpOk((before + later)[|before + later| - 1]);
      if Owner(Run(before + front)) == Some(a) {
        m := |later|;
        assert later[..m] == later;
        ExpiryIs(before + front, a);
        OwnerStays(Run(before + front), op, a);
        TickTouch(before + later, a);
      } else {
        m := HandOver(before, front, a);
        assert front[..m] == later[..m];
      }
    }
  }

  lemma TickTouch(ops: seq<Op>, node: Node)
    requires ops != [] && ops[|ops| - 1].Tick?
    ensures LastTouch(ops, node) == LastTouch(ops[..|ops| - 1], node)
    ensures Run(ops).now == Run(ops[..|ops| - 1]).now + ops[|ops| - 1].elapsed
  {
  }

  // ---------------------------------------------------------------- what the calls return

  /** A lease is granted to its owner, or to anyone when there is none, and then lasts for the ttl. */
  lemma AcquireIff(ops: seq<Op>, node: Node, ttl: nat)
    requires ttl > 0
    ensures var k, after := Run(ops), Acquire(Run(ops), node, ttl);
            if Owner(k) == None || Owner(k) == Some(node) then
              Granted(after, node) == Some(1)
              && after.lease == Some(Cell(node, k.now + ttl)) && after.token == Some(Cell(1, k.now + ttl))
            else Granted(after, node) == None && after == k
  {
    EveryRunPaired(ops);
  }

  lemma RenewIff(ops: seq<Op>, node: Node, ttl: nat)
    requires ttl > 0
    ensures var k, after := Run(ops), Renew(Run(ops), node, ttl);
            if Owner(k) == Some(node) then
              Granted(after, node) == Some(1)
              && after.lease == Some(Cell(node, k.now + ttl)) && after.token == Some(Cell(1, k.now + ttl))
            else Granted(after, node) == None && after == k
  {
    EveryRunPaired(ops);
  }

  /**
   After a release, by whomever, another node gets the lease exactly when nobody had it, the caller had it, or that node
   has it itself; and a token stays valid exactly when the lease was somebody else's.
   */
  lemma ReleaseFreesIff(ops: seq<Op>, node: Node, other: Node, ttl: nat)
    requires ttl > 0
    ensures var k, after := Run(ops), Run(ops + [OpRelease(node)]);
            && (Granted(Acquire(after, other, ttl), other).Some? <==>
                  Owner(k) == None || Owner(k) == Some(node) || Owner(k) == Some(other))
            && (ValidateToken(after, 1) <==> Owner(k) != None && Owner(k) != Some(node))
  {
    RunSnoc(ops, OpRelease(node));
    EveryRunPaired(ops);
    hide Run;
    StepPaired(Run(ops), OpRelease(node));
  }

  // ---------------------------------------------------------------- what the fencing token is worth

  /**
   A token is valid exactly when some node holds the lease and the token is 1, the only one that is ever given out.
   */
  lemma ValidIff(ops: seq<Op>, token: int)
    ensures ValidateToken(Run(ops), token) <==> Owner(Run(ops)).Some? && token == 1
  {
    EveryRunPaired(ops);
  }

  /** Throughout a tenure the owner gets one and the same token, and it is accepted. */
  lemma TokenOfTenure(before: seq<Op>, later: seq<Op>, node: Node, token: int)
    requires Granted(Run(before), node) == Some(token)
    requires Owner(Run(before + later)) == Some(node)
    ensures Granted(Run(before + later), node) == Some(token) && ValidateToken(Run(before + later), token)
  {
    EveryRunPaired(before);
    EveryRunPaired(before + later);
  }

  /**
   The tokens do not fence off a node that has lost its lease: its token is rejected exactly while nobody holds the
   lease, and accepted as soon as another node does.
   */
  lemma StaleTokenRejectedIff(before: seq<Op>, later: seq<Op>, node: Node, token: int)
    requires Granted(Run(before), node) == Some(token)
    requires Owner(Run(before + later)) != Some(node)
    ensures !ValidateToken(Run(before + later), token) <==> Owner(Run(before + later)) == None
  {
    EveryRunPaired(before);
    ValidIff(before + later, token);
  }

  lemma RunSnoc(ops: seq<Op>, op: Op)
    ensures Run(ops + [op]) == Step(Run(ops), op)
  {
    assert (ops + [op])[..|ops|] == ops;
  }

  /** A's lease of 30 runs out, B acquires, and A's token is still valid. */
  lemma StaleTokenAccepted()
    ensures var first := [] + [OpAcquire("A", 30)];
            var all := first + [Tick(30)] + [OpAcquire("B", 30)];
            && Granted(Run(first), "A") == Some(1)
            && Owner(Run(all)) == Some("B") != Some("A")
            && ValidateToken(Run(all), 1)
  {
    var first := [] + [OpAcquire("A", 30)];
    RunSnoc([], OpAcquire("A", 30));
    RunSnoc(first, Tick(30));
    RunSnoc(first + [Tick(30)], OpAcquire("B", 30));
    hide Run;
    assert Run(first) == Step(Keys(0, None, None), OpAcquire("A", 30)) by { Initial(); }
    assert "A"[0] != "B"[0];
  }

  lemma Initial()
    ensures Run([]) == Keys(0, None, None)
  {
  }

  // ---------------------------------------------------------------- the manager

  /** The Redis keys of all transfers, under one clock. */
  class LeaseManager {
    var now: nat
    var leases: map<string, Cell<Node>>
    var tokens: map<string, Cell<int>>

    function KeysOf(infoHash: string): Keys
      reads this
    {
      Keys(now, if infoHash in leases then Some(leases[infoHash]) else None,
           if infoHash in tokens then Some(tokens[infoHash]) else None)
    }

    constructor ()
      ensures forall h :: KeysOf(h) == Run([])
    {
      now, leases, tokens := 0, map[], map[];
    }

    /** The two EXPIRE calls of a script, on keys that are live. */
    method Refresh(infoHash: string, ttl: nat)
      requires Owner(KeysOf(infoHash)).Some?
      modifies this`leases, this`tokens
      ensures KeysOf(infoHash) == Refreshed(old(KeysOf(infoHash)), ttl)
      ensures forall h :: h != infoHash ==> KeysOf(h) == old(KeysOf(h))
    {
      leases := leases[infoHash := Cell(leases[infoHash].value, now + ttl)];
      if infoHash in tokens && now < tokens[infoHash].expiresAt {
        tokens := tokens[infoHash := Cell(tokens[infoHash].value, now + ttl)];
      } else {
        tokens := tokens - {infoHash};
      }
    }

    method AcquireLease(infoHash: string, node: Node, ttl: nat) returns (token: Option<int>)
      requires ttl > 0
      modifies this`leases, this`tokens
      ensures KeysOf(infoHash) == Step(old(KeysOf(infoHash)), OpAcquire(node, ttl))
      ensures token == Granted(KeysOf(infoHash), node)
      ensures forall h :: h != infoHash ==> KeysOf(h) == old(KeysOf(h))
    {
      var live := infoHash in leases && now < leases[infoHash].expiresAt;
      if !live {
        var count := if infoHash in tokens && now < tokens[infoHash].expiresAt then tokens[infoHash].value + 1 else 1;
        leases := leases[infoHash := Cell(node, now + ttl)];
        tokens := tokens[infoHash := Cell(count, now + ttl)];
        return Some(count);
      } else if leases[infoHash].value == node {
        Refresh(infoHash, ttl);
        return Some(if infoHash in tokens then tokens[infoHash].value else 0);
      } else {
        return None;
      }
    }

    method RenewLease(infoHash: string, node: Node, ttl: nat) returns (token: Option<int>)
      requires ttl > 0
      modifies this`leases, this`tokens
      ensures KeysOf(infoHash) == Step(old(KeysOf(infoHash)), OpRenew(node, ttl))
      ensures token == Granted(KeysOf(infoHash), node)
      ensures forall h :: h != infoHash ==> KeysOf(h) == old(KeysOf(h))
    {
      if infoHash in leases && now < leases[infoHash].expiresAt && leases[infoHash].value == node {
        Refresh(infoHash, ttl);
        return Some(if infoHash in tokens then tokens[infoHash].value else 0);
      }
      token := None;
    }

    /** Renews each transfer in turn; a transfer listed twice is renewed twice. */
    method RenewLeasesBulk(infoHashes: seq<string>, node: Node, ttl: nat) returns (results: seq<Option<int>>)
      requires ttl > 0
      modifies this`leases, this`tokens
      ensures |results| == |infoHashes|
      ensures forall h :: KeysOf(h) == if h in infoHashes then Renew(old(KeysOf(h)), node, ttl) else old(KeysOf(h))
      ensures forall i :: 0 <= i < |results| ==>
                results[i] == Granted(Renew(old(KeysOf(infoHashes[i])), node, ttl), node)
    {
      results := [];
      for i := 0 to |infoHashes|
        invariant |results| == i && now == old(now)
        invariant forall h :: KeysOf(h)
                           == if h in infoHashes[..i] then Renew(old(KeysOf(h)), node, ttl) else old(KeysOf(h))
        invariant forall j :: 0 <= j < i ==> results[j] == Granted(Renew(old(KeysOf(infoHashes[j])), node, ttl), node)
        modifies this`leases, this`tokens
      {
        RenewTwice(old(KeysOf(infoHashes[i])), node, ttl);
        var token := RenewLease(infoHashes[i], node, ttl);
        results := results + [token];
        assert infoHashes[..i + 1] == infoHashes[..i] + [infoHashes[i]];
      }
      assert infoHashes[..|infoHashes|] == infoHashes;
    }

    method Validate(infoHash: string, token: int) returns (valid: bool)
      ensures valid <==> ValidateToken(KeysOf(infoHash), token)
    {
      valid := infoHash in tokens && now < tokens[infoHash].expiresAt && tokens[infoHash].value == token;
    }

    method ReleaseLease(infoHash: string, node: Node) returns (released: bool)
      modifies this`leases, this`tokens
      ensures KeysOf(infoHash) == Step(old(KeysOf(infoHash)), OpRelease(node))
      ensures released <==> Owner(old(KeysOf(infoHash))) == Some(node)
      ensures forall h :: h != infoHash ==> KeysOf(h) == old(KeysOf(h))
    {
      released := infoHash in leases && now < leases[infoHash].expiresAt && leases[infoHash].value == node;
      if released {
        leases := leases - {infoHash};
        tokens := tokens - {infoHash};
      }
    }
  }

  lemma RenewTwice(k: Keys, node: Node, ttl: nat)
    requires ttl > 0
    ensures Renew(Renew(k, node, ttl), node, ttl) == Renew(k, node, ttl)
  {
  }
}
