/** The k-buckets (BEP 5, section "Routing Table"): adding, refreshing and removing nodes, and the closest ones. */
module RoutingTable {
  import opened Bytes
  import opened Kademlia
  import opened Sorting

  datatype Contact = Contact(id: Id, host: string, port: nat)

  datatype Node = Node(contact: Contact, lastSeen: int)

  datatype KBucket = KBucket(nodes: seq<Node>, lastRefresh: int)

  datatype Error = HostAndPortRequired

  // ---------------------------------------------------------------- the table as a value

  function Find(nodes: seq<Node>, id: Id): (r: nat)
    ensures r <= |nodes|
    ensures r < |nodes| ==> nodes[r].contact.id == id
    ensures forall i :: 0 <= i < r ==> nodes[i].contact.id != id
  {
    if nodes == [] then 0 else if nodes[0].contact.id == id then 0 else 1 + Find(nodes[1..], id)
  }

  function Without(nodes: seq<Node>, i: nat): seq<Node>
    requires i < |nodes|
  {
    nodes[..i] + nodes[i + 1..]
  }

  /** The table after a node was heard of at `now`, and whether it is in the table. */
  function Added(own: Id, k: nat, bs: seq<KBucket>, c: Contact, now: int): (seq<KBucket>, bool)
    requires |bs| == 160
  {
    if c.id == own then (bs, false)
    else
      var b := Bucket(own, c.id);
      var nodes := bs[b].nodes;
      var i := Find(nodes, c.id);
      if i < |nodes| then (bs[b := bs[b].(nodes := Without(nodes, i) + [Node(c, now)])], true)
      else if |nodes| < k then (bs[b := KBucket(nodes + [Node(c, now)], now)], true)
      else (bs, false)
  }

  function Removed(own: Id, bs: seq<KBucket>, id: Id): (seq<KBucket>, bool)
    requires |bs| == 160
  {
    var b := Bucket(own, id);
    var nodes := bs[b].nodes;
    var i := Find(nodes, id);
    if i < |nodes| then (bs[b := bs[b].(nodes := Without(nodes, i))], true) else (bs, false)
  }

  // ---------------------------------------------------------------- what every table keeps

  /** At most k nodes, none twice, none misplaced, never the own id, longest unseen first, none seen in the future. */
  ghost predicate BucketOk(own: Id, k: nat, nodes: seq<Node>, b: nat, clock: int) {
    && |nodes| <= k
    && (forall i :: 0 <= i < |nodes| ==>
          nodes[i].contact.id != own && Bucket(own, nodes[i].contact.id) == b && nodes[i].lastSeen <= clock)
    && (forall i, j :: 0 <= i < j < |nodes| ==>
          nodes[i].contact.id != nodes[j].contact.id && nodes[i].lastSeen <= nodes[j].lastSeen)
  }

  ghost predicate TableOk(own: Id, k: nat, bs: seq<KBucket>, clock: int) {
    |bs| == 160 && forall b :: 0 <= b < 160 ==> BucketOk(own, k, bs[b].nodes, b, clock)
  }

  lemma BucketLater(own: Id, k: nat, nodes: seq<Node>, b: nat, clock: int, now: int)
    requires BucketOk(own, k, nodes, b, clock) && clock <= now
    ensures BucketOk(own, k, nodes, b, now)
  {
  }

  lemma TableLater(own: Id, k: nat, bs: seq<KBucket>, clock: int, now: int)
    requires TableOk(own, k, bs, clock) && clock <= now
    ensures TableOk(own, k, bs, now)
  {
    forall b | 0 <= b < 160 ensures BucketOk(own, k, bs[b].nodes, b, now) {
      BucketLater(own, k, bs[b].nodes, b, clock, now);
    }
  }

  lemma WithoutKeeps(own: Id, k: nat, nodes: seq<Node>, b: nat, clock: int, i: nat)
    requires BucketOk(own, k, nodes, b, clock) && i < |nodes|
    ensures BucketOk(own, k, Without(nodes, i), b, clock)
    ensures forall j :: 0 <= j < |Without(nodes, i)| ==> Without(nodes, i)[j].contact.id != nodes[i].contact.id
  {
    var w := Without(nodes, i);
    assert forall j :: 0 <= j < |w| ==> w[j] == nodes[if j < i then j else j + 1];
  }

  lemma AppendKeeps(own: Id, k: nat, nodes: seq<Node>, b: nat, clock: int, n: Node)
    requires BucketOk(own, k, nodes, b, clock) && |nodes| < k && n.lastSeen == clock
    requires n.contact.id != own && Bucket(own, n.contact.id) == b
    requires forall j :: 0 <= j < |nodes| ==> nodes[j].contact.id != n.contact.id
    ensures BucketOk(own, k, nodes + [n], b, clock)
  {
  }

  lemma AddedKeeps(own: Id, k: nat, bs: seq<KBucket>, clock: int, c: Contact, now: int)
    requires TableOk(own, k, bs, clock) && clock <= now
    ensures TableOk(own, k, Added(own, k, bs, c, now).0, now)
  {
    TableLater(own, k, bs, clock, now);
    hide BucketOk;
    if c.id != own {
      var b := Bucket(own, c.id);
      var nodes := bs[b].nodes;
      var i := Find(nodes, c.id);
      if i < |nodes| {
        WithoutKeeps(own, k, nodes, b, now, i);
        SizeBelow(own, k, nodes, b, now);
        AppendKeeps(own, k, Without(nodes, i), b, now, Node(c, now));
      } else if |nodes| < k {
        AppendKeeps(own, k, nodes, b, now, Node(c, now));
      }
    }
  }

  lemma SizeBelow(own: Id, k: nat, nodes: seq<Node>, b: nat, clock: int)
    requires BucketOk(own, k, nodes, b, clock)
    ensures |nodes| <= k
  {
  }

  lemma RemovedKeeps(own: Id, k: nat, bs: seq<KBucket>, clock: int, id: Id)
    requires TableOk(own, k, bs, clock)
    ensures TableOk(own, k, Removed(own, bs, id).0, clock)
  {
    hide BucketOk;
    var b := Bucket(own, id);
    var i := Find(bs[b].nodes, id);
    if i < |bs[b].nodes| {
      WithoutKeeps(own, k, bs[b].nodes, b, clock, i);
    }
  }

  // ---------------------------------------------------------------- what is in the table

  ghost predicate InTable(bs: seq<KBucket>, n: Node) {
    exists b :: 0 <= b < |bs| && n in bs[b].nodes
  }

  ghost predicate KnowsId(bs: seq<KBucket>, id: Id) {
    exists n :: InTable(bs, n) && n.contact.id == id
  }

  /** In a table that is in order a node stands in the bucket of its id. */
  lemma InBucket(own: Id, k: nat, bs: seq<KBucket>, clock: int, n: Node)
    requires TableOk(own, k, bs, clock) && InTable(bs, n)
    ensures n in bs[Bucket(own, n.contact.id)].nodes && n.contact.id != own
  {
    var b :| 0 <= b < 160 && n in bs[b].nodes;
    assert BucketOk(own, k, bs[b].nodes, b, clock);
  }

  lemma KnownIff(own: Id, k: nat, bs: seq<KBucket>, clock: int, id: Id)
    requires TableOk(own, k, bs, clock)
    ensures var nodes := bs[Bucket(own, id)].nodes; KnowsId(bs, id) <==> Find(nodes, id) < |nodes|
  {
    hide BucketOk;
    var b := Bucket(own, id);
    var i := Find(bs[b].nodes, id);
    if i < |bs[b].nodes| { assert InTable(bs, bs[b].nodes[i]); }
    if n :| InTable(bs, n) && n.contact.id == id {
      InBucket(own, k, bs, clock, n);
    }
  }

  /** One bucket replaced: what is in the table then. */
  lemma InChanged(own: Id, k: nat, bs: seq<KBucket>, clock: int, id: Id, bucket: KBucket, n: Node)
    requires TableOk(own, k, bs, clock)
    ensures var b := Bucket(own, id);
            InTable(bs[b := bucket], n)
            <==> n in bucket.nodes || (InTable(bs, n) && n !in bs[b].nodes)
  {
    hide BucketOk;
    var b := Bucket(own, id);
    var t := bs[b := bucket];
    if InTable(t, n) && n !in bucket.nodes {
      var a :| 0 <= a < 160 && n in t[a].nodes;
      assert n in bs[a].nodes;
      if n in bs[b].nodes { OneBucket(own, k, bs, clock, a, b, n); }
    }
    if n in bucket.nodes { assert n in t[b].nodes; }
    if InTable(bs, n) && n !in bs[b].nodes {
      var a :| 0 <= a < 160 && n in bs[a].nodes;
      assert n in t[a].nodes;
    }
  }

  lemma OneBucket(own: Id, k: nat, bs: seq<KBucket>, clock: int, a: nat, b: nat, n: Node)
    requires TableOk(own, k, bs, clock) && a < 160 && b < 160 && n in bs[a].nodes && n in bs[b].nodes
    ensures a == b
  {
    assert BucketOk(own, k, bs[a].nodes, a, clock) && BucketOk(own, k, bs[b].nodes, b, clock);
  }

  lemma WithoutIs(own: Id, k: nat, nodes: seq<Node>, b: nat, clock: int, i: nat, n: Node)
    requires BucketOk(own, k, nodes, b, clock) && i < |nodes|
    ensures n in Without(nodes, i) <==> n in nodes && n.contact.id != nodes[i].contact.id
  {
    WithoutKeeps(own, k, nodes, b, clock, i);
    assert nodes == nodes[..i] + ([nodes[i]] + nodes[i + 1..]);
  }

  /**
   An addition is accepted exactly if it is not the own id and either the id is known already or its bucket has room.
   Then the node is at the end of its bucket, in place of any older entry for its id, and nothing else has changed; only
   a new id makes its bucket fresh. A refused addition changes nothing.
   */
  lemma AddedIs(own: Id, k: nat, bs: seq<KBucket>, clock: int, c: Contact, now: int)
    requires TableOk(own, k, bs, clock)
    ensures var (t, added) := Added(own, k, bs, c, now);
            var b := Bucket(own, c.id);
            && (added <==> c.id != own && (KnowsId(bs, c.id) || |bs[b].nodes| < k))
            && (added ==> t[b].nodes != [] && t[b].nodes[|t[b].nodes| - 1] == Node(c, now))
            && (forall n :: InTable(t, n) <==>
                  (added && n == Node(c, now)) || (InTable(bs, n) && (added ==> n.contact.id != c.id)))
            && (!added ==> t == bs)
            && (forall a :: 0 <= a < 160 ==>
                  t[a].lastRefresh == if added && a == b && !KnowsId(bs, c.id) then now else bs[a].lastRefresh)
  {
    assert |bs| == 160;
    hide TableOk, Without, InTable;
    KnownIff(own, k, bs, clock, c.id);
    var (t, added) := Added(own, k, bs, c, now);
    if added {
      var b := Bucket(own, c.id);
      forall n ensures InTable(t, n) <==> n == Node(c, now) || (InTable(bs, n) && n.contact.id != c.id) {
        InChanged(own, k, bs, clock, c.id, t[b], n);
        AddedBucket(own, k, bs, clock, c, now, n);
      }
    }
  }

  lemma AddedBucket(own: Id, k: nat, bs: seq<KBucket>, clock: int, c: Contact, now: int, n: Node)
    requires TableOk(own, k, bs, clock) && Added(own, k, bs, c, now).1
    ensures var b := Bucket(own, c.id);
            var t := Added(own, k, bs, c, now).0;
            && t == bs[b := t[b]]
            && (n in t[b].nodes <==> n == Node(c, now) || (n in bs[b].nodes && n.contact.id != c.id))
            && (InTable(bs, n) && n.contact.id == c.id ==> n in bs[b].nodes)
  {
    var b := Bucket(own, c.id);
    var nodes := bs[b].nodes;
    var i := Find(nodes, c.id);
    assert BucketOk(own, k, nodes, b, clock);
    if InTable(bs, n) { InBucket(own, k, bs, clock, n); }
    hide TableOk, BucketOk, InTable, Without;
    if i < |nodes| {
      WithoutIs(own, k, nodes, b, clock, i, n);
    }
  }

  /** A removal takes out exactly the node with the id, and tells whether there was one. */
  lemma RemovedIs(own: Id, k: nat, bs: seq<KBucket>, clock: int, id: Id)
    requires TableOk(own, k, bs, clock)
    ensures var (t, found) := Removed(own, bs, id);
            && (found <==> KnowsId(bs, id))
            && (forall n :: InTable(t, n) <==> InTable(bs, n) && n.contact.id != id)
  {
    var b := Bucket(own, id);
    var nodes := bs[b].nodes;
    var i := Find(nodes, id);
    assert forall n <- nodes :: InTable(bs, n);
    hide BucketOk, Without, InTable;
    KnownIff(own, k, bs, clock, id);
    var (t, found) := Removed(own, bs, id);
    forall n ensures InTable(t, n) <==> InTable(bs, n) && n.contact.id != id {
      if found {
        assert BucketOk(own, k, nodes, b, clock);
        InChanged(own, k, bs, clock, id, t[b], n);
        WithoutIs(own, k, nodes, b, clock, i, n);
        if InTable(bs, n) { InBucket(own, k, bs, clock, n); }
      }
    }
  }

  // ---------------------------------------------------------------- runs

  datatype Op = Add(c: Contact, now: int) | Remove(id: Id)

  ghost predicate TimesAscend(ops: seq<Op>) {
    forall i, j :: 0 <= i < j < |ops| && ops[i].Add? && ops[j].Add? ==> ops[i].now <= ops[j].now
  }

  function Empty(now: int): (r: seq<KBucket>)
    ensures |r| == 160
  {
    seq(160, _ => KBucket([], now))
  }

  function Step(own: Id, k: nat, bs: seq<KBucket>, op: Op): (r: seq<KBucket>)
    requires |bs| == 160
    ensures |r| == 160
  {
    match op
    case Add(c, now) => Added(own, k, bs, c, now).0
    case Remove(id) => Removed(own, bs, id).0
  }

  function Run(own: Id, k: nat, start: int, ops: seq<Op>): (r: seq<KBucket>)
    ensures |r| == 160
  {
    if ops == [] then Empty(start) else Step(own, k, Run(own, k, start, ops[..|ops| - 1]), ops[|ops| - 1])
  }

  function LastTime(start: int, ops: seq<Op>): int {
    if ops == [] then start
    else if ops[|ops| - 1].Add? then ops[|ops| - 1].now else LastTime(start, ops[..|ops| - 1])
  }

  lemma {:induction false} LastTimeIs(start: int, ops: seq<Op>)
    ensures LastTime(start, ops) == start
         || exists i :: 0 <= i < |ops| && ops[i].Add? && ops[i].now == LastTime(start, ops)
  {
    if ops != [] && ops[|ops| - 1].Remove? {
      var front := ops[..|ops| - 1];
      LastTimeIs(start, front);
      if LastTime(start, front) != start {
        var i :| 0 <= i < |front| && front[i].Add? && front[i].now == LastTime(start, front);
        assert ops[i] == front[i];
      }
    }
  }

  /** Every table that adding and removing can lead to keeps its buckets in order. */
  lemma {:induction false} EveryRunOk(own: Id, k: nat, start: int, ops: seq<Op>)
    requires TimesAscend(ops) && forall i :: 0 <= i < |ops| && ops[i].Add? ==> start <= ops[i].now
    ensures TableOk(own, k, Run(own, k, start, ops), LastTime(start, ops))
  {
    if ops != [] {
      var front, op := ops[..|ops| - 1], ops[|ops| - 1];
      assert forall i :: 0 <= i < |front| ==> front[i] == ops[i];
      EveryRunOk(own, k, start, front);
      match op
      case Add(c, now) =>
        LastTimeIs(start, front);
        AddedKeeps(own, k, Run(own, k, start, front), LastTime(start, front), c, now);
      case Remove(id) =>
        RemovedKeeps(own, k, Run(own, k, start, front), LastTime(start, front), id);
    }
  }

  // ---------------------------------------------------------------- closest nodes

  function Contacts(nodes: seq<Node>): (r: seq<Contact>)
    ensures |r| == |nodes|
  {
    seq(|nodes|, i requires 0 <= i < |nodes| => nodes[i].contact)
  }

  function AllNodes(bs: seq<KBucket>): seq<Contact> {
    if bs == [] then [] else AllNodes(bs[..|bs| - 1]) + Contacts(bs[|bs| - 1].nodes)
  }

  /** The order by distance to a target, as Buffer.compare sees it. */
  function Closer(target: Id): (Contact, Contact) -> bool {
    (a: Contact, b: Contact) => Compare(Distance(a.id, target), Distance(b.id, target)) < 0
  }

  function DistanceTo(c: Contact, target: Id): nat {
    Number(Distance(c.id, target))
  }

  lemma CloserIs(target: Id, a: Contact, b: Contact)
    ensures Closer(target)(a, b) <==> DistanceTo(a, target) < DistanceTo(b, target)
  {
    CompareIsOrder(Distance(a.id, target), Distance(b.id, target));
  }

  lemma CloserOrders(target: Id)
    ensures WeakOrder(Closer(target))
  {
    hide DistanceTo;
    var less := Closer(target);
    forall a, b ensures less(a, b) <==> DistanceTo(a, target) < DistanceTo(b, target) {
      CloserIs(target, a, b);
    }
  }

  function Take<T>(s: seq<T>, n: nat): (r: seq<T>)
    ensures |r| == if n < |s| then n else |s|
  {
    if n < |s| then s[..n] else s
  }

  ghost predicate DistinctIds(cs: seq<Contact>) {
    forall i, j :: 0 <= i < j < |cs| ==> cs[i].id != cs[j].id
  }

  lemma {:induction false} AllNodesDistinct(own: Id, k: nat, bs: seq<KBucket>, clock: int)
    requires forall b :: 0 <= b < |bs| ==> BucketOk(own, k, bs[b].nodes, b, clock)
    ensures DistinctIds(AllNodes(bs))
    ensures forall i :: 0 <= i < |AllNodes(bs)| ==> AllNodes(bs)[i].id != own && Bucket(own, AllNodes(bs)[i].id) < |bs|
  {
    if bs != [] {
      var n := |bs| - 1;
      AllNodesDistinct(own, k, bs[..n], clock);
      assert BucketOk(own, k, bs[n].nodes, n, clock);
    }
  }

  /** Of the nodes in `cs`, `count` that no other one is closer than, nearest first. */
  lemma ClosestOf(cs: seq<Contact>, target: Id, count: nat)
    ensures var r := Take(Sort(cs, Closer(target)), count);
            && (forall i, j :: 0 <= i < j < |r| ==> DistanceTo(r[i], target) <= DistanceTo(r[j], target))
            && (forall x :: x in r ==> x in cs)
            && (forall x, y :: x in cs && x !in r && y in r ==> DistanceTo(y, target) <= DistanceTo(x, target))
  {
    hide DistanceTo;
    var less := Closer(target);
    var s := Sort(cs, less);
    CloserOrders(target);
    SortSorted(cs, less);
    SortElements(cs, less);
    forall a, b ensures less(a, b) <==> DistanceTo(a, target) < DistanceTo(b, target) {
      CloserIs(target, a, b);
    }
    var r := Take(s, count);
    forall x, y | x in cs && x !in r && y in r ensures DistanceTo(y, target) <= DistanceTo(x, target) {
      var j :| 0 <= j < |s| && s[j] == x;
      var i :| 0 <= i < |r| && r[i] == y;
    }
  }

  /** With ids that differ, distances differ: every node left out is strictly farther away. */
  lemma ClosestStrict(cs: seq<Contact>, target: Id, count: nat)
    requires DistinctIds(cs)
    ensures var r := Take(Sort(cs, Closer(target)), count);
            forall x, y :: x in cs && x !in r && y in r ==> DistanceTo(y, target) < DistanceTo(x, target)
  {
    hide DistanceTo;
    ClosestOf(cs, target, count);
    var r := Take(Sort(cs, Closer(target)), count);
    forall x, y | x in cs && x !in r && y in r ensures DistanceTo(y, target) < DistanceTo(x, target) {
      var i :| 0 <= i < |cs| && cs[i] == x;
      assert y in cs;
      var j :| 0 <= j < |cs| && cs[j] == y;
      assert x.id != y.id;
      if DistanceTo(x, target) == DistanceTo(y, target) {
        SameDistance(x, y, target);
      }
    }
  }

  lemma SameDistance(x: Contact, y: Contact, target: Id)
    requires DistanceTo(x, target) == DistanceTo(y, target)
    ensures x.id == y.id
  {
    CompareIsOrder(Distance(x.id, target), Distance(y.id, target));
    Unidirectional(x.id, y.id, target);
  }

  // ---------------------------------------------------------------- the table as an object

  ghost predicate IsOldest(nodes: seq<Node>, c: Contact) {
    exists n :: n in nodes && n.contact == c && forall m :: m in nodes ==> n.lastSeen <= m.lastSeen
  }

  class RoutingTable {
    const nodeId: Id
    const k: nat
    var buckets: seq<KBucket>
    ghost var clock: int

    ghost predicate Valid()
      reads this
    {
      TableOk(nodeId, k, buckets, clock)
    }

    constructor (nodeId: Id, k: nat, now: int)
      ensures Valid() && this.nodeId == nodeId && this.k == (if k == 0 then 8 else k)
      ensures buckets == Empty(now) && clock == now
    {
      this.nodeId := nodeId;
      this.k := if k == 0 then 8 else k;
      buckets := Empty(now);
      clock := now;
    }

    method AddNode(node: Contact, now: int) returns (r: Result<bool, Error>)
      requires Valid() && clock <= now
      modifies this
      ensures Valid()
      ensures r.Err? <==> node.host == "" || node.port == 0
      ensures r.Err? ==> buckets == old(buckets)
      ensures r.Ok? ==> (buckets, r.value) == Added(nodeId, k, old(buckets), node, now)
    {
      AddedKeeps(nodeId, k, buckets, clock, node, now);
      TableLater(nodeId, k, buckets, clock, now);
      clock := now;
      if node.host == "" || node.port == 0 { return Err(HostAndPortRequired); }
      if node.id == nodeId { return Ok(false); }
      var bucketIndex := GetBucket(nodeId, node.id);
      var bucket := buckets[bucketIndex];
      var existingIndex := Find(bucket.nodes, node.id);
      if existingIndex < |bucket.nodes| {
        var nodes := bucket.nodes[..existingIndex] + bucket.nodes[existingIndex + 1..];
        nodes := nodes + [Node(node, now)];
        buckets := buckets[bucketIndex := bucket.(nodes := nodes)];
        return Ok(true);
      }
      if |bucket.nodes| < k {
        buckets := buckets[bucketIndex := KBucket(bucket.nodes + [Node(node, now)], now)];
        return Ok(true);
      }
      return Ok(false);
    }

    method RemoveNode(id: Id) returns (found: bool)
      requires Valid()
      modifies this`buckets
      ensures Valid() && (buckets, found) == Removed(nodeId, old(buckets), id)
    {
      RemovedKeeps(nodeId, k, buckets, clock, id);
      var bucketIndex := GetBucket(nodeId, id);
      var bucket := buckets[bucketIndex];
      var index := Find(bucket.nodes, id);
      if index < |bucket.nodes| {
        buckets := buckets[bucketIndex := bucket.(nodes := bucket.nodes[..index] + bucket.nodes[index + 1..])];
        return true;
      }
      return false;
    }

    /** The least recently seen node of a bucket. */
    method GetOldestInBucket(bucketIndex: nat) returns (r: Option<Contact>)
      requires Valid() && bucketIndex < 160
      ensures r.None? <==> buckets[bucketIndex].nodes == []
      ensures r.Some? ==> IsOldest(buckets[bucketIndex].nodes, r.value)
    {
      var nodes := buckets[bucketIndex].nodes;
      if |nodes| == 0 { return None; }
      assert BucketOk(nodeId, k, nodes, bucketIndex, clock);
      r := Some(nodes[0].contact);
      assert nodes[0] in nodes;
    }

    method GetAllNodes() returns (nodes: seq<Contact>)
      ensures nodes == AllNodes(buckets)
    {
      nodes := [];
      for i := 0 to |buckets|
        invariant nodes == AllNodes(buckets[..i])
      {
        assert buckets[..i + 1][..i] == buckets[..i];
        nodes := nodes + Contacts(buckets[i].nodes);
      }
      assert buckets[..|buckets|] == buckets;
    }

    method GetClosest(targetId: Id, count: nat) returns (r: seq<Contact>)
      requires Valid()
      ensures |r| == if count < |AllNodes(buckets)| then count else |AllNodes(buckets)|
      ensures forall x :: x in r ==> x in AllNodes(buckets)
      ensures forall i, j :: 0 <= i < j < |r| ==> DistanceTo(r[i], targetId) <= DistanceTo(r[j], targetId)
      ensures forall x, y :: x in AllNodes(buckets) && x !in r && y in r ==>
                DistanceTo(y, targetId) < DistanceTo(x, targetId)
    {
      hide DistanceTo, BucketOk, Sort;
      var allNodes := GetAllNodes();
      ClosestOf(allNodes, targetId, count);
      AllNodesDistinct(nodeId, k, buckets, clock);
      ClosestStrict(allNodes, targetId, count);
      if |allNodes| == 0 { return []; }
      r := Take(Sort(allNodes, Closer(targetId)), count);
    }
  }
}
