/**
 The download queue: at most `maxConcurrent` torrents active, the others queued by priority and time, paused or
 completed. The state as a value with one function per operation, and what every run keeps.
 */
module QueueModel {
  import opened Bytes
  import opened Sorting

  type Hash = string

  datatype Priority = Low | Normal | High

  datatype Queued = Queued(infoHash: Hash, priority: Priority, addedAt: int, position: nat)

  /** `active` is a Map: its order is the order of insertion. */
  datatype State = State(queue: seq<Queued>, active: seq<Hash>, paused: set<Hash>, completed: set<Hash>,
                         maxConcurrent: nat, nextPosition: nat)

  datatype Error = AlreadyExists | BadLimit | NotQueued | BadPosition

  function Weight(p: Priority): int {
    match p case High => 3 case Normal => 2 case Low => 1
  }

  /** Higher priority first, then the one added earlier. */
  function Before(): (Queued, Queued) -> bool {
    (a: Queued, b: Queued) =>
      Weight(a.priority) > Weight(b.priority) || (a.priority == b.priority && a.addedAt < b.addedAt)
  }

  lemma BeforeOrders()
    ensures WeakOrder(Before())
  {
  }

  function SortQueue(q: seq<Queued>): seq<Queued> {
    Sort(q, Before())
  }

  // ---------------------------------------------------------------- operations on the state

  function FindQueued(q: seq<Queued>, h: Hash): (r: nat)
    ensures r <= |q|
    ensures r < |q| ==> q[r].infoHash == h
    ensures forall i :: 0 <= i < r ==> q[i].infoHash != h
  {
    if q == [] then 0 else if q[0].infoHash == h then 0 else 1 + FindQueued(q[1..], h)
  }

  function Delete(s: seq<Hash>, h: Hash): (r: seq<Hash>)
    ensures h !in s ==> r == s
  {
    if s == [] then [] else if s[0] == h then s[1..] else [s[0]] + Delete(s[1..], h)
  }

  predicate Exists(s: State, h: Hash) {
    h in s.active || h in s.paused || h in s.completed || FindQueued(s.queue, h) < |s.queue|
  }

  predicate CanActivate(s: State) {
    |s.active| < s.maxConcurrent
  }

  /** _processQueue */
  function Process(s: State): State
    decreases |s.queue|
  {
    if CanActivate(s) && |s.queue| > 0 then
      Process(s.(queue := s.queue[1..], active := s.active + [s.queue[0].infoHash]))
    else s
  }

  function Add(s: State, h: Hash, priority: Priority, startPaused: bool, now: int): Result<State, Error> {
    if Exists(s, h) then Err(AlreadyExists)
    else
      var t := s.(nextPosition := s.nextPosition + 1);
      Ok(if startPaused then t.(paused := t.paused + {h})
         else if CanActivate(t) then t.(active := t.active + [h])
         else t.(queue := SortQueue(t.queue + [Queued(h, priority, now, s.nextPosition)])))
  }

  function Remove(s: State, h: Hash): (State, bool) {
    var t := if h in s.active then Process(s.(active := Delete(s.active, h))) else s;
    var i := FindQueued(t.queue, h);
    var queue := if i < |t.queue| then t.queue[..i] + t.queue[i + 1..] else t.queue;
    (t.(paused := t.paused - {h}, completed := t.completed - {h}, queue := queue),
     h in s.active || h in t.paused || h in t.completed || i < |t.queue|)
  }

  function Start(s: State, h: Hash, now: int): (State, bool) {
    if h in s.paused then
      var t := s.(paused := s.paused - {h});
      if CanActivate(t) then (t.(active := t.active + [h]), true)
      else
        var e := Queued(h, High, now, t.nextPosition);
        (t.(queue := SortQueue([e] + t.queue), nextPosition := t.nextPosition + 1), true)
    else
      var i := FindQueued(s.queue, h);
      if i < |s.queue| then
        (Process(s.(queue := SortQueue(s.queue[i := s.queue[i].(priority := High, addedAt := now)]))), true)
      else (s, false)
  }

  function Pause(s: State, h: Hash): (State, bool) {
    if h !in s.active then (s, false)
    else (Process(s.(active := Delete(s.active, h), paused := s.paused + {h})), true)
  }

  function PauseAll(s: State, hs: seq<Hash>): State
    decreases |hs|
  {
    if hs == [] then s else PauseAll(Pause(s, hs[0]).0, hs[1..])
  }

  function SetMaxConcurrent(s: State, max: int): Result<State, Error> {
    if max < 1 then Err(BadLimit)
    else
      var t := s.(maxConcurrent := max);
      Ok(if max > s.maxConcurrent then Process(t)
         else if max < s.maxConcurrent && |t.active| > max then PauseAll(t, t.active[max..])
         else t)
  }

  function SetPriority(s: State, h: Hash, priority: Priority): (State, bool) {
    var i := FindQueued(s.queue, h);
    if i >= |s.queue| then (s, false)
    else if s.queue[i].priority == priority then (s, true)
    else (s.(queue := SortQueue(s.queue[i := s.queue[i].(priority := priority)])), true)
  }

  function MoveInQueue(s: State, h: Hash, newPosition: int): Result<State, Error> {
    var i := FindQueued(s.queue, h);
    if i >= |s.queue| then Err(NotQueued)
    else if newPosition < 0 || newPosition >= |s.queue| then Err(BadPosition)
    else
      var rest := s.queue[..i] + s.queue[i + 1..];
      Ok(s.(queue := rest[..newPosition] + [s.queue[i]] + rest[newPosition..]))
  }

  function Complete(s: State, h: Hash): State {
    if h !in s.active then s
    else Process(s.(active := Delete(s.active, h), completed := s.completed + {h}))
  }

  // ---------------------------------------------------------------- what every state keeps

  function HashOf(q: Queued): Hash {
    q.infoHash
  }

  function Waiting(q: seq<Queued>): (r: set<Hash>)
    ensures forall i :: 0 <= i < |q| ==> q[i].infoHash in r
  {
    if q == [] then {} else {q[0].infoHash} + Waiting(q[1..])
  }

  function Running(a: seq<Hash>): (r: set<Hash>)
    ensures forall h :: h in r <==> h in a
  {
    set h | h in a
  }

  ghost predicate NoneTwice(a: seq<Hash>) {
    forall i, j :: 0 <= i < j < |a| ==> a[i] != a[j]
  }

  /** Every known torrent is in one place, once. */
  ghost predicate Partition(s: State) {
    && NoneTwice(s.active) && DistinctBy(s.queue, HashOf)
    && Running(s.active) !! Waiting(s.queue) !! s.paused !! s.completed
  }

  /** Never more active torrents than allowed, and none waiting while there is room. */
  ghost predicate WithinLimit(s: State) {
    1 <= s.maxConcurrent && |s.active| <= s.maxConcurrent && (s.queue != [] ==> |s.active| == s.maxConcurrent)
  }

  ghost predicate QueueOk(s: State) {
    Partition(s) && WithinLimit(s)
  }

  ghost predicate InOrder(s: State) {
    Sorted(s.queue, Before())
  }

  function Known(s: State): set<Hash> {
    Running(s.active) + Waiting(s.queue) + s.paused + s.completed
  }

  // ---------------------------------------------------------------- lemmas on queues

  lemma {:induction false} WaitingAppend(a: seq<Queued>, b: seq<Queued>)
    ensures Waiting(a + b) == Waiting(a) + Waiting(b)
  {
    if a == [] {
      assert a + b == b;
    } else {
      assert (a + b)[1..] == a[1..] + b;
      WaitingAppend(a[1..], b);
    }
  }

  lemma {:induction false} WaitingOwner(q: seq<Queued>, h: Hash) returns (i: nat)
    requires h in Waiting(q)
    ensures i < |q| && q[i].infoHash == h
  {
    if q[0].infoHash == h {
      i := 0;
    } else {
      i := WaitingOwner(q[1..], h);
      i := i + 1;
    }
  }

  lemma FoundIff(q: seq<Queued>, h: Hash)
    ensures FindQueued(q, h) < |q| <==> h in Waiting(q)
  {
    if h in Waiting(q) {
      var i := WaitingOwner(q, h);
    }
  }

  lemma SortWaits(q: seq<Queued>)
    requires DistinctBy(q, HashOf)
    ensures DistinctBy(SortQueue(q), HashOf) && Waiting(SortQueue(q)) == Waiting(q) && |SortQueue(q)| == |q|
    ensures Sorted(SortQueue(q), Before())
  {
    var s := SortQueue(q);
    SortDistinct(q, Before(), HashOf);
    SortElements(q, Before());
    BeforeOrders();
    SortSorted(q, Before());
    forall h ensures h in Waiting(s) <==> h in Waiting(q) {
      if h in Waiting(s) { var i := WaitingOwner(s, h); assert s[i] in q; }
      if h in Waiting(q) { var i := WaitingOwner(q, h); assert q[i] in s; }
    }
  }

  lemma {:induction false} DeleteIs(a: seq<Hash>, h: Hash)
    requires NoneTwice(a) && h in a
    ensures NoneTwice(Delete(a, h)) && Running(Delete(a, h)) == Running(a) - {h} && |Delete(a, h)| == |a| - 1
    ensures forall x :: x in Delete(a, h) <==> x in a && x != h
  {
    if a[0] != h {
      DeleteIs(a[1..], h);
      var d := Delete(a[1..], h);
      assert forall x :: x in Delete(a, h) <==> x == a[0] || x in d;
      assert forall j :: 0 <= j < |d| ==> d[j] in a[1..];
    }
  }

  lemma NotWaiting(q: seq<Queued>, h: Hash)
    requires forall j :: 0 <= j < |q| ==> q[j].infoHash != h
    ensures h !in Waiting(q)
  {
    if h in Waiting(q) {
      var j := WaitingOwner(q, h);
    }
  }

  lemma WaitingSplit(q: seq<Queued>, i: nat)
    requires i < |q|
    ensures Waiting(q) == Waiting(q[..i] + q[i + 1..]) + {q[i].infoHash}
  {
    hide Waiting;
    var a, e, b := q[..i], q[i], q[i + 1..];
    WaitingHead(e, b);
    WaitingAppend(a, b);
    WaitingAppend(a, [e] + b);
    SplitAt(q, i);
  }

  lemma SplitAt(q: seq<Queued>, i: nat)
    requires i < |q|
    ensures q == q[..i] + ([q[i]] + q[i + 1..])
  {
  }

  lemma WaitingHead(e: Queued, q: seq<Queued>)
    ensures Waiting([e] + q) == {e.infoHash} + Waiting(q)
  {
    assert ([e] + q)[1..] == q;
  }

  /** The queue without one of its entries. */
  lemma WithoutWaits(q: seq<Queued>, i: nat)
    requires DistinctBy(q, HashOf) && i < |q|
    ensures var r := q[..i] + q[i + 1..];
            DistinctBy(r, HashOf) && Waiting(r) == Waiting(q) - {q[i].infoHash} && q[i].infoHash !in Waiting(r)
    ensures Sorted(q, Before()) ==> Sorted(q[..i] + q[i + 1..], Before())
  {
    hide Waiting, Before;
    var r := q[..i] + q[i + 1..];
    assert forall j :: 0 <= j < |r| ==> r[j] == q[if j < i then j else j + 1];
    forall j | 0 <= j < |r| ensures r[j].infoHash != q[i].infoHash {
      assert HashOf(r[j]) != HashOf(q[i]);
    }
    NotWaiting(r, q[i].infoHash);
    WaitingSplit(q, i);
  }

  /** Processing starts the first entries of the queue, in order, as many as there is room for. */
  lemma {:induction false} ProcessStarts(s: State)
    ensures var m := Startable(s);
            && Process(s).queue == s.queue[m..]
            && Process(s).active == s.active + Hashes(s.queue[..m])
            && Process(s) == s.(queue := s.queue[m..], active := s.active + Hashes(s.queue[..m]))
    decreases |s.queue|
  {
    if CanActivate(s) && |s.queue| > 0 {
      var t := s.(queue := s.queue[1..], active := s.active + [s.queue[0].infoHash]);
      ProcessStarts(t);
      var m := Startable(s);
      assert s.queue[..m][1..] == s.queue[1..][..m - 1];
      assert t.active + Hashes(t.queue[..m - 1]) == s.active + Hashes(s.queue[..m]);
    } else {
      assert s.active + Hashes(s.queue[..0]) == s.active;
    }
  }

  function Startable(s: State): (m: nat)
    ensures m <= |s.queue|
  {
    var room := s.maxConcurrent - |s.active|;
    if room <= 0 then 0 else if room < |s.queue| then room else |s.queue|
  }

  function Hashes(q: seq<Queued>): (r: seq<Hash>)
    ensures |r| == |q|
  {
    if q == [] then [] else [q[0].infoHash] + Hashes(q[1..])
  }

  /** One torrent moved from the head of the queue to the active ones. */
  lemma StartHead(s: State)
    requires Partition(s) && s.queue != []
    ensures var t := s.(queue := s.queue[1..], active := s.active + [s.queue[0].infoHash]);
            Partition(t) && Known(t) == Known(s) && (InOrder(s) ==> InOrder(t))
  {
    hide Before, Sorted, DistinctBy, Waiting;
    var h := s.queue[0].infoHash;
    assert s.queue[..0] + s.queue[1..] == s.queue[1..];
    WithoutWaits(s.queue, 0);
    AppendRunning(s.active, h);
    assert h in Waiting(s.queue);
  }

  lemma AppendRunning(a: seq<Hash>, h: Hash)
    requires NoneTwice(a) && h !in a
    ensures NoneTwice(a + [h]) && Running(a + [h]) == Running(a) + {h}
  {
  }

  /** Processing keeps every torrent in one place and leaves none waiting while there is room. */
  lemma {:induction false} ProcessKeeps(s: State)
    requires Partition(s) && 1 <= s.maxConcurrent && |s.active| <= s.maxConcurrent
    ensures QueueOk(Process(s)) && Known(Process(s)) == Known(s)
    ensures InOrder(s) ==> InOrder(Process(s))
    decreases |s.queue|
  {
    if CanActivate(s) && |s.queue| > 0 {
      hide Partition, Known, InOrder;
      StartHead(s);
      ProcessKeeps(s.(queue := s.queue[1..], active := s.active + [s.queue[0].infoHash]));
    }
  }

  // ---------------------------------------------------------------- every operation keeps it

  lemma AddKeeps(s: State, h: Hash, priority: Priority, startPaused: bool, now: int)
    requires QueueOk(s)
    ensures var r := Add(s, h, priority, startPaused, now);
            && (r.Err? <==> h in Known(s))
            && (r.Ok? ==> QueueOk(r.value) && Known(r.value) == Known(s) + {h})
            && (r.Ok? && InOrder(s) ==> InOrder(r.value))
            && (r.Ok? ==>
                  if startPaused then h in r.value.paused
                  else if |s.active| < s.maxConcurrent then h in r.value.active
                  else h in Waiting(r.value.queue))
  {
    hide Before, Sorted, DistinctBy, Waiting, HashOf, SortQueue, FindQueued;
    FoundIff(s.queue, h);
    if h !in Known(s) {
      EnqueueLast(s.queue, Queued(h, priority, now, s.nextPosition));
      AppendRunning(s.active, h);
    }
  }

  /** A new entry put anywhere into the queue, which is then sorted. */
  lemma EnqueueWaits(q: seq<Queued>, e: Queued, p: nat)
    requires DistinctBy(q, HashOf) && p <= |q| && e.infoHash !in Waiting(q)
    ensures var r := SortQueue(q[..p] + [e] + q[p..]);
            DistinctBy(r, HashOf) && Waiting(r) == Waiting(q) + {e.infoHash} && |r| == |q| + 1 && Sorted(r, Before())
  {
    hide SortQueue, DistinctBy, Waiting, Sorted, Before, HashOf;
    InsertWaits(q, e, p);
    SortWaits(q[..p] + [e] + q[p..]);
  }

  lemma EnqueueLast(q: seq<Queued>, e: Queued)
    requires DistinctBy(q, HashOf) && e.infoHash !in Waiting(q)
    ensures var r := SortQueue(q + [e]);
            DistinctBy(r, HashOf) && Waiting(r) == Waiting(q) + {e.infoHash} && |r| == |q| + 1 && Sorted(r, Before())
  {
    hide SortQueue, DistinctBy, Waiting, Sorted, Before, HashOf;
    EnqueueWaits(q, e, |q|);
    assert q[..|q|] + [e] + q[|q|..] == q + [e];
  }

  lemma EnqueueFirst(q: seq<Queued>, e: Queued)
    requires DistinctBy(q, HashOf) && e.infoHash !in Waiting(q)
    ensures var r := SortQueue([e] + q);
            DistinctBy(r, HashOf) && Waiting(r) == Waiting(q) + {e.infoHash} && |r| == |q| + 1 && Sorted(r, Before())
  {
    hide SortQueue, DistinctBy, Waiting, Sorted, Before, HashOf;
    EnqueueWaits(q, e, 0);
    assert q[..0] + [e] + q[0..] == [e] + q;
  }

  lemma RemoveKeeps(s: State, h: Hash)
    requires QueueOk(s)
    ensures var (t, removed) := Remove(s, h);
            && (removed <==> h in Known(s)) && QueueOk(t) && Known(t) == Known(s) - {h}
            && (InOrder(s) ==> InOrder(t))
  {
    hide Before, Sorted, DistinctBy, Waiting, HashOf, Process, Delete, Running, Partition, WithinLimit;
    var t := s;
    if h in s.active {
      RemoveActive(s, h);
      t := Process(s.(active := Delete(s.active, h)));
    }
    RemoveInactive(t, h);
  }

  /** Taking a torrent that is not active out of wherever it is. */
  lemma RemoveInactive(s: State, h: Hash)
    requires QueueOk(s) && h !in s.active
    ensures var (t, removed) := Remove(s, h);
            && (removed <==> h in Known(s)) && QueueOk(t) && Known(t) == Known(s) - {h} && (InOrder(s) ==> InOrder(t))
  {
    hide Before, Sorted, DistinctBy, Waiting, HashOf, Process, Delete;
    FoundIff(s.queue, h);
    var i := FindQueued(s.queue, h);
    if i < |s.queue| {
      WithoutWaits(s.queue, i);
    }
  }

  lemma RemoveActive(s: State, h: Hash)
    requires QueueOk(s) && h in s.active
    ensures var t := Process(s.(active := Delete(s.active, h)));
            && QueueOk(t) && Known(t) == Known(s) - {h} && (InOrder(s) ==> InOrder(t))
            && t.paused == s.paused && t.completed == s.completed
  {
    hide Before, Sorted, DistinctBy, Waiting, HashOf, Process, Delete;
    DeleteIs(s.active, h);
    var t := s.(active := Delete(s.active, h));
    ProcessKeeps(t);
    ProcessPaused(t);
  }

  lemma StartKeeps(s: State, h: Hash, now: int)
    requires QueueOk(s)
    ensures var (t, started) := Start(s, h, now);
            && (started <==> h in s.paused || h in Waiting(s.queue)) && QueueOk(t) && Known(t) == Known(s)
            && (InOrder(s) ==> InOrder(t))
  {
    FoundIff(s.queue, h);
    hide Before, Sorted, DistinctBy, Waiting, HashOf, Process, SortQueue;
    if h in s.paused {
      EnqueueFirst(s.queue, Queued(h, High, now, s.nextPosition));
      AppendRunning(s.active, h);
    } else {
      var i := FindQueued(s.queue, h);
      if i < |s.queue| {
        var e := s.queue[i].(priority := High, addedAt := now);
        UpdateWaits(s.queue, i, e);
        ProcessKeeps(s.(queue := SortQueue(s.queue[i := e])));
      }
    }
  }

  /** An entry changed but for its hash, and the queue sorted again. */
  lemma UpdateWaits(q: seq<Queued>, i: nat, e: Queued)
    requires DistinctBy(q, HashOf) && i < |q| && e.infoHash == q[i].infoHash
    ensures var r := SortQueue(q[i := e]);
            DistinctBy(r, HashOf) && Waiting(r) == Waiting(q) && |r| == |q| && Sorted(r, Before())
  {
    var p := q[i := e];
    assert forall j :: 0 <= j < |q| ==> HashOf(p[j]) == HashOf(q[j]);
    SortWaits(p);
    forall h ensures h in Waiting(p) <==> h in Waiting(q) {
      if h in Waiting(p) { var j := WaitingOwner(p, h); assert HashOf(q[j]) == h; }
      if h in Waiting(q) { var j := WaitingOwner(q, h); assert HashOf(p[j]) == h; }
    }
  }

  lemma PauseKeeps(s: State, h: Hash)
    requires Partition(s) && 1 <= s.maxConcurrent
    requires (|s.active| <= s.maxConcurrent || (h in s.active && |s.active| == s.maxConcurrent + 1))
    requires WithinLimit(s) || h in s.active
    ensures var (t, done) := Pause(s, h);
            && (done <==> h in s.active) && QueueOk(t) && Known(t) == Known(s)
            && (InOrder(s) ==> InOrder(t)) && (done ==> h in t.paused)
  {
    if h in s.active {
      DeleteIs(s.active, h);
      ProcessPaused(s.(active := Delete(s.active, h), paused := s.paused + {h}));
      ProcessKeeps(s.(active := Delete(s.active, h), paused := s.paused + {h}));
    }
  }

  lemma ProcessPaused(s: State)
    ensures Process(s).paused == s.paused && Process(s).completed == s.completed
    ensures Process(s).maxConcurrent == s.maxConcurrent && Process(s).nextPosition == s.nextPosition
  {
    ProcessStarts(s);
  }

  /** Pausing down to the limit: the earliest started stay, the queue does not move. */
  lemma {:induction false} PauseExcess(s: State, m: nat)
    requires NoneTwice(s.active) && m <= |s.active| && s.maxConcurrent <= m
    ensures var t := PauseAll(s, s.active[m..]);
            t == s.(active := s.active[..m], paused := s.paused + Running(s.active[m..]))
    decreases |s.active| - m
  {
    if m == |s.active| {
      assert s.active[m..] == [] && s.active[..m] == s.active;
      assert s.paused + Running([]) == s.paused;
    } else {
      var h := s.active[m];
      DeleteAt(s.active, m);
      var t := s.(active := s.active[..m] + s.active[m + 1..], paused := s.paused + {h});
      assert Pause(s, h).0 == t;
      assert t.active[m..] == s.active[m + 1..] == s.active[m..][1..];
      PauseExcess(t, m);
      assert t.active[..m] == s.active[..m];
      assert t.paused + Running(t.active[m..]) == s.paused + Running(s.active[m..]);
    }
  }

  lemma {:induction false} DeleteAt(a: seq<Hash>, m: nat)
    requires NoneTwice(a) && m < |a|
    ensures Delete(a, a[m]) == a[..m] + a[m + 1..]
  {
    if m > 0 {
      var rest := a[1..];
      assert rest[m - 1] == a[m] && a[0] != a[m];
      DeleteAt(rest, m - 1);
      hide Delete;
      assert a[..m] == [a[0]] + rest[..m - 1];
      assert a[m + 1..] == rest[m..];
    }
  }

  lemma SetMaxKeeps(s: State, max: int)
    requires QueueOk(s)
    ensures var r := SetMaxConcurrent(s, max);
            && (r.Err? <==> max < 1)
            && (r.Ok? ==> QueueOk(r.value) && Known(r.value) == Known(s) && r.value.maxConcurrent == max)
            && (r.Ok? && InOrder(s) ==> InOrder(r.value))
  {
    hide DistinctBy, Waiting, HashOf, Sorted, Before, Process, PauseAll;
    if max >= 1 {
      var t := s.(maxConcurrent := max);
      if max > s.maxConcurrent {
        ProcessKeeps(t);
        ProcessPaused(t);
      } else if max < s.maxConcurrent && |t.active| > max {
        PausedDown(t, max);
      }
    }
  }

  /** The torrents beyond the limit go from the active to the paused ones. */
  lemma PausedDown(t: State, max: nat)
    requires Partition(t) && 1 <= max < |t.active| && t.maxConcurrent == max
    ensures var r := PauseAll(t, t.active[max..]);
            && QueueOk(r) && Known(r) == Known(t) && r.maxConcurrent == max && r.queue == t.queue
  {
    hide PauseAll, DistinctBy, Waiting, HashOf;
    PauseExcess(t, max);
    RunningSplit(t.active, max);
  }

  lemma RunningSplit(a: seq<Hash>, m: nat)
    requires NoneTwice(a) && m <= |a|
    ensures NoneTwice(a[..m]) && Running(a) == Running(a[..m]) + Running(a[m..]) && Running(a[..m]) !! Running(a[m..])
  {
    hide Running;
    assert a == a[..m] + a[m..];
  }

  lemma SetPriorityKeeps(s: State, h: Hash, priority: Priority)
    requires QueueOk(s)
    ensures var (t, found) := SetPriority(s, h, priority);
            && (found <==> h in Waiting(s.queue)) && QueueOk(t) && Known(t) == Known(s)
            && (InOrder(s) ==> InOrder(t))
  {
    FoundIff(s.queue, h);
    var i := FindQueued(s.queue, h);
    if i < |s.queue| {
      UpdateWaits(s.queue, i, s.queue[i].(priority := priority));
    }
  }

  lemma CompleteKeeps(s: State, h: Hash)
    requires QueueOk(s)
    ensures QueueOk(Complete(s, h)) && Known(Complete(s, h)) == Known(s) && (InOrder(s) ==> InOrder(Complete(s, h)))
    ensures h in s.active ==> h in Complete(s, h).completed
  {
    if h in s.active {
      ProcessPaused(s.(active := Delete(s.active, h), completed := s.completed + {h}));
      DeleteIs(s.active, h);
      ProcessKeeps(s.(active := Delete(s.active, h), completed := s.completed + {h}));
    }
  }

  lemma MoveKeeps(s: State, h: Hash, newPosition: int)
    requires QueueOk(s)
    ensures var r := MoveInQueue(s, h, newPosition);
            && (r.Ok? <==> h in Waiting(s.queue) && 0 <= newPosition < |s.queue|)
            && (r.Ok? ==>
                  QueueOk(r.value) && Known(r.value) == Known(s) && Moved(s.queue, r.value.queue, h, newPosition))
  {
    hide DistinctBy, Waiting, HashOf, Moved;
    FoundIff(s.queue, h);
    var i := FindQueued(s.queue, h);
    if i < |s.queue| && 0 <= newPosition < |s.queue| {
      var rest := s.queue[..i] + s.queue[i + 1..];
      WithoutWaits(s.queue, i);
      InsertWaits(rest, s.queue[i], newPosition);
      MovedTo(s.queue, i, newPosition);
    }
  }

  lemma MovedTo(q: seq<Queued>, i: nat, n: nat)
    requires i < |q| && n < |q|
    ensures var rest := q[..i] + q[i + 1..];
            Moved(q, rest[..n] + [q[i]] + rest[n..], q[i].infoHash, n)
  {
    var rest := q[..i] + q[i + 1..];
    var r := rest[..n] + [q[i]] + rest[n..];
    assert r[..n] == rest[..n] && r[n + 1..] == rest[n..];
    assert rest == rest[..n] + rest[n..];
  }

  /** The entry of `h` is at the new position, and the others follow one another as before. */
  ghost predicate Moved(q: seq<Queued>, r: seq<Queued>, h: Hash, newPosition: int) {
    && |r| == |q| && 0 <= newPosition < |q|
    && exists i :: 0 <= i < |q| && q[i].infoHash == h && r[newPosition] == q[i]
                && q[..i] + q[i + 1..] == r[..newPosition] + r[newPosition + 1..]
  }

  lemma InsertWaits(q: seq<Queued>, e: Queued, p: nat)
    requires DistinctBy(q, HashOf) && p <= |q| && e.infoHash !in Waiting(q)
    ensures var r := q[..p] + [e] + q[p..];
            DistinctBy(r, HashOf) && Waiting(r) == Waiting(q) + {e.infoHash}
  {
    hide DistinctBy, Waiting, HashOf;
    var r := q[..p] + [e] + q[p..];
    InsertedDistinct(q, e, p);
    assert r[..p] + r[p + 1..] == q;
    WaitingSplit(r, p);
  }

  lemma InsertedDistinct(q: seq<Queued>, e: Queued, p: nat)
    requires DistinctBy(q, HashOf) && p <= |q| && e.infoHash !in Waiting(q)
    ensures DistinctBy(q[..p] + [e] + q[p..], HashOf)
  {
    hide Waiting;
    var r := q[..p] + [e] + q[p..];
    assert forall j :: 0 <= j < |r| ==> r[j] == if j < p then q[j] else if j == p then e else q[j - 1];
    assert forall j :: 0 <= j < |q| ==> HashOf(q[j]) != e.infoHash;
  }

  // ---------------------------------------------------------------- runs

  datatype Op =
    | OpAdd(h: Hash, priority: Priority, startPaused: bool, now: int)
    | OpRemove(h: Hash)
    | OpStart(h: Hash, now: int)
    | OpPause(h: Hash)
    | OpSetMax(max: int)
    | OpSetPriority(h: Hash, priority: Priority)
    | OpMove(h: Hash, newPosition: int)
    | OpComplete(h: Hash)

  /** A rejected operation changes nothing. */
  function Step(s: State, op: Op): State {
    match op
    case OpAdd(h, p, sp, now) => var r := Add(s, h, p, sp, now); if r.Ok? then r.value else s
    case OpRemove(h) => Remove(s, h).0
    case OpStart(h, now) => Start(s, h, now).0
    case OpPause(h) => Pause(s, h).0
    case OpSetMax(max) => var r := SetMaxConcurrent(s, max); if r.Ok? then r.value else s
    case OpSetPriority(h, p) => SetPriority(s, h, p).0
    case OpMove(h, n) => var r := MoveInQueue(s, h, n); if r.Ok? then r.value else s
    case OpComplete(h) => Complete(s, h)
  }

  function Initial(maxConcurrent: nat): State {
    State([], [], {}, {}, if maxConcurrent == 0 then 3 else maxConcurrent, 0)
  }

  function Run(maxConcurrent: nat, ops: seq<Op>): State {
    if ops == [] then Initial(maxConcurrent) else Step(Run(maxConcurrent, ops[..|ops| - 1]), ops[|ops| - 1])
  }

  /** The torrents added and not removed. */
  function Expected(ops: seq<Op>): set<Hash> {
    if ops == [] then {}
    else
      var before := Expected(ops[..|ops| - 1]);
      match ops[|ops| - 1]
      case OpAdd(h, _, _, _) => before + {h}
      case OpRemove(h) => before - {h}
      case _ => before
  }

  lemma StepKeeps(s: State, op: Op)
    requires QueueOk(s)
    ensures QueueOk(Step(s, op))
    ensures InOrder(s) && !op.OpMove? ==> InOrder(Step(s, op))
    ensures Known(Step(s, op)) == match op case OpAdd(h, _, _, _) => Known(s) + {h}
                                           case OpRemove(h) => Known(s) - {h}
                                           case _ => Known(s)
  {
    hide QueueOk, InOrder, Known, Add, Remove, Start, Pause, SetMaxConcurrent, SetPriority, MoveInQueue, Complete;
    match op
    case OpAdd(h, p, sp, now) => AddKeeps(s, h, p, sp, now);
    case OpRemove(h) => RemoveKeeps(s, h);
    case OpStart(h, now) => StartKeeps(s, h, now);
    case OpPause(h) => PauseStep(s, h);
    case OpSetMax(max) => SetMaxKeeps(s, max);
    case OpSetPriority(h, p) => SetPriorityKeeps(s, h, p);
    case OpMove(h, n) => MoveKeeps(s, h, n);
    case OpComplete(h) => CompleteKeeps(s, h);
  }

  lemma PauseStep(s: State, h: Hash)
    requires QueueOk(s)
    ensures QueueOk(Pause(s, h).0) && Known(Pause(s, h).0) == Known(s) && (InOrder(s) ==> InOrder(Pause(s, h).0))
  {
    PauseKeeps(s, h);
  }

  /** In every run: one place for each known torrent, the limit kept, nobody waiting while there is room. */
  lemma {:induction false} EveryRunOk(maxConcurrent: nat, ops: seq<Op>)
    ensures QueueOk(Run(maxConcurrent, ops)) && Known(Run(maxConcurrent, ops)) == Expected(ops)
  {
    if ops != [] {
      hide QueueOk, Known, Step;
      EveryRunOk(maxConcurrent, ops[..|ops| - 1]);
      StepKeeps(Run(maxConcurrent, ops[..|ops| - 1]), ops[|ops| - 1]);
    }
  }

  /** The limit last set, or else the one the manager was made with, 3 if it was made without one. */
  ghost predicate LimitSet(maxConcurrent: nat, ops: seq<Op>, limit: nat) {
    if exists i :: 0 <= i < |ops| && ops[i].OpSetMax? && ops[i].max >= 1 then
      limit >= 1
      && exists i :: 0 <= i < |ops| && ops[i] == OpSetMax(limit)
                  && forall j :: i < j < |ops| ==> !(ops[j].OpSetMax? && ops[j].max >= 1)
    else limit == if maxConcurrent == 0 then 3 else maxConcurrent
  }

  lemma {:induction false} EveryRunLimit(maxConcurrent: nat, ops: seq<Op>)
    ensures LimitSet(maxConcurrent, ops, Run(maxConcurrent, ops).maxConcurrent)
  {
    if ops != [] {
      var front, op := ops[..|ops| - 1], ops[|ops| - 1];
      var s := Run(maxConcurrent, front);
      EveryRunOk(maxConcurrent, front);
      EveryRunLimit(maxConcurrent, front);
      StepLimit(s, op);
      hide QueueOk, Step, Known;
      LimitSnoc(maxConcurrent, front, op, s.maxConcurrent);
      assert front + [op] == ops;
    }
  }

  lemma LimitSnoc(maxConcurrent: nat, ops: seq<Op>, op: Op, limit: nat)
    requires LimitSet(maxConcurrent, ops, limit)
    ensures LimitSet(maxConcurrent, ops + [op], if op.OpSetMax? && op.max >= 1 then op.max else limit)
  {
    var all := ops + [op];
    assert all[|ops|] == op;
    if op.OpSetMax? && op.max >= 1 {
    } else if exists i :: 0 <= i < |ops| && ops[i].OpSetMax? && ops[i].max >= 1 {
      var i :| 0 <= i < |ops| && ops[i] == OpSetMax(limit)
               && forall j :: i < j < |ops| ==> !(ops[j].OpSetMax? && ops[j].max >= 1);
      assert all[i] == ops[i];
    } else {
      assert forall i :: 0 <= i < |ops| ==> all[i] == ops[i];
    }
  }

  lemma StepLimit(s: State, op: Op)
    requires QueueOk(s)
    ensures Step(s, op).maxConcurrent == if op.OpSetMax? && op.max >= 1 then op.max else s.maxConcurrent
  {
    hide Sorted, DistinctBy, Waiting, HashOf, Process, Delete, SortQueue, PauseAll, Before;
    match op
    case OpRemove(h) => if h in s.active { ProcessPaused(s.(active := Delete(s.active, h))); }
    case OpStart(h, now) =>
      var i := FindQueued(s.queue, h);
      if h !in s.paused && i < |s.queue| {
        ProcessPaused(s.(queue := SortQueue(s.queue[i := s.queue[i].(priority := High, addedAt := now)])));
      }
    case OpPause(h) => ProcessPaused(s.(active := Delete(s.active, h), paused := s.paused + {h}));
    case OpSetMax(max) => SetMaxKeeps(s, max);
    case OpComplete(h) => ProcessPaused(s.(active := Delete(s.active, h), completed := s.completed + {h}));
    case _ =>
  }

  /** Without manual moves the queue stays in order. */
  lemma {:induction false} EveryRunInOrder(maxConcurrent: nat, ops: seq<Op>)
    requires forall i :: 0 <= i < |ops| ==> !ops[i].OpMove?
    ensures InOrder(Run(maxConcurrent, ops))
  {
    if ops != [] {
      hide QueueOk, InOrder, Known, Step;
      EveryRunOk(maxConcurrent, ops[..|ops| - 1]);
      EveryRunInOrder(maxConcurrent, ops[..|ops| - 1]);
      StepKeeps(Run(maxConcurrent, ops[..|ops| - 1]), ops[|ops| - 1]);
    }
  }

  /**
   What processing starts is never passed over for something less urgent: lower priority, or as high but added later.
   */
  lemma StartsMostUrgent(s: State, i: nat, j: nat)
    requires InOrder(s) && i < Startable(s) <= j < |s.queue|
    ensures |s.active| + i < |Process(s).active| && Process(s).active[|s.active| + i] == s.queue[i].infoHash
    ensures s.queue[j] in Process(s).queue
    ensures Weight(s.queue[i].priority) > Weight(s.queue[j].priority)
         || (s.queue[i].priority == s.queue[j].priority && s.queue[i].addedAt <= s.queue[j].addedAt)
  {
    ProcessStarts(s);
    HashesAt(s.queue[..Startable(s)], i);
    assert s.queue[Startable(s)..][j - Startable(s)] == s.queue[j];
    assert !Before()(s.queue[j], s.queue[i]);
  }

  lemma {:induction false} HashesAt(q: seq<Queued>, i: nat)
    requires i < |q|
    ensures Hashes(q)[i] == q[i].infoHash
  {
    if i > 0 {
      HashesAt(q[1..], i - 1);
    }
  }

  lemma {:induction false} HashIn(q: seq<Queued>, h: Hash) returns (i: nat)
    requires h in Hashes(q)
    ensures i < |q| && q[i].infoHash == h
  {
    if q[0].infoHash == h {
      i := 0;
    } else {
      i := HashIn(q[1..], h);
      i := i + 1;
    }
  }

  /** A torrent that processing makes active was in the queue, and nothing that still waits was before it. */
  lemma ProcessedFirst(s: State, h: Hash, w: Queued) returns (e: Queued)
    requires InOrder(s) && h in Process(s).active && h !in s.active && w in Process(s).queue
    ensures e in s.queue && e.infoHash == h && !Before()(w, e)
  {
    ProcessStarts(s);
    var m := Startable(s);
    var i := HashIn(s.queue[..m], h);
    e := s.queue[i];
    var j :| 0 <= j < |s.queue[m..]| && s.queue[m..][j] == w;
    assert s.queue[m + j] == w;
  }

  lemma StartedByStep(s: State, op: Op, h: Hash, w: Queued) returns (e: Queued)
    requires QueueOk(s) && InOrder(s) && !op.OpMove?
    requires h in Step(s, op).active && h !in s.active && w in Step(s, op).queue
    ensures !op.OpStart? && e in s.queue && e.infoHash == h && !Before()(w, e)
  {
    hide Before, Sorted, DistinctBy, Waiting, HashOf, Process, SortQueue, Delete, PauseAll, Start, SetMaxConcurrent;
    if op.OpRemove? && op.h in s.active {
      DeleteIs(s.active, op.h);
      e := ProcessedFirst(s.(active := Delete(s.active, op.h)), h, w);
    } else if op.OpStart? {
      StartKeepsActive(s, op.h, op.now);
    } else if op.OpPause? && op.h in s.active {
      DeleteIs(s.active, op.h);
      e := ProcessedFirst(s.(active := Delete(s.active, op.h), paused := s.paused + {op.h}), h, w);
    } else if op.OpSetMax? {
      e := StartedBySetMax(s, op.max, h, w);
    } else if op.OpComplete? && op.h in s.active {
      DeleteIs(s.active, op.h);
      e := ProcessedFirst(s.(active := Delete(s.active, op.h), completed := s.completed + {op.h}), h, w);
    }
  }

  /** A start that leaves anything waiting makes nothing active: there is no room while something waits. */
  lemma StartKeepsActive(s: State, h: Hash, now: int)
    requires QueueOk(s)
    ensures var t := Start(s, h, now).0; t.queue != [] ==> t.active == s.active
  {
    hide Partition, SortQueue;
    var i := FindQueued(s.queue, h);
    if h !in s.paused && i < |s.queue| {
      ProcessStarts(s.(queue := SortQueue(s.queue[i := s.queue[i].(priority := High, addedAt := now)])));
    }
  }

  /** Of a queue with one entry replaced under the same hash: the new entry, or one of another torrent. */
  lemma UpdatedEntry(q: seq<Queued>, i: nat, r: Queued, e: Queued)
    requires DistinctBy(q, HashOf) && i < |q| && r.infoHash == q[i].infoHash && e in q[i := r]
    ensures e == r || (e in q && e.infoHash != r.infoHash)
  {
    var j :| 0 <= j < |q| && q[i := r][j] == e;
    if j != i {
      assert HashOf(q[j]) != HashOf(q[i]);
    }
  }

  lemma SortedFrom(q: seq<Queued>, e: Queued)
    requires e in SortQueue(q)
    ensures e in q
  {
    SortElements(q, Before());
  }

  lemma StartedBySetMax(s: State, max: int, h: Hash, w: Queued) returns (e: Queued)
    requires QueueOk(s) && InOrder(s)
    requires var t := Step(s, OpSetMax(max)); h in t.active && h !in s.active && w in t.queue
    ensures e in s.queue && e.infoHash == h && !Before()(w, e)
  {
    hide Before, Sorted, DistinctBy, Waiting, HashOf, Process, PauseAll;
    if max > s.maxConcurrent {
      e := ProcessedFirst(s.(maxConcurrent := max), h, w);
    } else if 1 <= max < |s.active| {
      PauseExcess(s.(maxConcurrent := max), max);
    }
  }

  // ---------------------------------------------------------------- what was asked for each torrent

  datatype Wish = Wish(priority: Priority, addedAt: int)

  /**
   What the operations so far ask for a torrent: the priority and time it was added with, high priority and the time of
   its start after one, another priority after it was set, and nothing for a torrent that is not known.
   */
  function Asked(ops: seq<Op>, h: Hash): Option<Wish> {
    if ops == [] then None
    else
      var before := Asked(ops[..|ops| - 1], h);
      match ops[|ops| - 1]
      case OpAdd(x, p, _, now) => if x == h && before.None? then Some(Wish(p, now)) else before
      case OpRemove(x) => if x == h then None else before
      case OpStart(x, now) => if x == h && before.Some? then Some(Wish(High, now)) else before
      case OpSetPriority(x, p) => if x == h && before.Some? then Some(before.value.(priority := p)) else before
      case _ => before
  }

  /** Higher priority, or the same and added earlier. */
  ghost predicate MoreUrgent(a: Wish, b: Wish) {
    || (a.priority == High && b.priority != High) || (a.priority == Normal && b.priority == Low)
    || (a.priority == b.priority && a.addedAt < b.addedAt)
  }

  /** Every entry has the priority and the time that were asked for its torrent. */
  ghost predicate AsAsked(q: seq<Queued>, ops: seq<Op>) {
    forall e :: e in q ==> Asked(ops, e.infoHash) == Some(Wish(e.priority, e.addedAt))
  }

  lemma {:induction false} AskedIff(ops: seq<Op>, h: Hash)
    ensures Asked(ops, h).Some? <==> h in Expected(ops)
  {
    if ops != [] {
      AskedIff(ops[..|ops| - 1], h);
    }
  }

  /** Where the entries of the queue come from after a step. */
  ghost predicate Entered(s: State, op: Op, e: Queued) {
    match op
    case OpAdd(h, p, _, now) =>
      e in s.queue || (e.infoHash == h && h !in Known(s) && e.priority == p && e.addedAt == now)
    case OpRemove(h) => e in s.queue && e.infoHash != h
    case OpStart(h, now) => if e.infoHash == h then e.priority == High && e.addedAt == now else e in s.queue
    case OpSetPriority(h, p) =>
      if e.infoHash == h
      then e.priority == p && exists o :: o in s.queue && o.infoHash == h && o.addedAt == e.addedAt
      else e in s.queue
    case _ => e in s.queue
  }

  lemma ProcessedFrom(s: State, e: Queued)
    requires e in Process(s).queue
    ensures e in s.queue
  {
    ProcessStarts(s);
  }

  lemma StepEnters(s: State, op: Op, e: Queued)
    requires QueueOk(s) && e in Step(s, op).queue
    ensures Entered(s, op, e)
  {
    hide Sorted, DistinctBy, Waiting, HashOf, Process, Delete, SortQueue, PauseAll, Before;
    match op
    case OpAdd(h, p, sp, now) =>
      FoundIff(s.queue, h);
      if e !in s.queue { SortedFrom(s.queue + [Queued(h, p, now, s.nextPosition)], e); }
    case OpRemove(h) => RemoveEnters(s, h, e);
    case OpStart(h, now) => StartEnters(s, h, now, e);
    case OpPause(h) =>
      if h in s.active { ProcessedFrom(s.(active := Delete(s.active, h), paused := s.paused + {h}), e); }
    case OpSetMax(max) =>
      if max > s.maxConcurrent {
        ProcessedFrom(s.(maxConcurrent := max), e);
      } else if 1 <= max < |s.active| {
        PauseExcess(s.(maxConcurrent := max), max);
      }
    case OpSetPriority(h, p) => SetPriorityEnters(s, h, p, e);
    case OpMove(h, n) =>
    case OpComplete(h) =>
      if h in s.active { ProcessedFrom(s.(active := Delete(s.active, h), completed := s.completed + {h}), e); }
  }

  lemma RemoveEnters(s: State, h: Hash, e: Queued)
    requires QueueOk(s) && e in Remove(s, h).0.queue
    ensures e in s.queue && e.infoHash != h
  {
    var t := if h in s.active then Process(s.(active := Delete(s.active, h))) else s;
    if h in s.active {
      RemoveActive(s, h);
      ProcessStarts(s.(active := Delete(s.active, h)));
    }
    hide DistinctBy, Waiting, HashOf, Process, Delete;
    var i := FindQueued(t.queue, h);
    if i < |t.queue| {
      WithoutWaits(t.queue, i);
    }
    RemoveInactive(t, h);
    assert e.infoHash in Waiting(Remove(s, h).0.queue);
  }

  lemma StartEnters(s: State, h: Hash, now: int, e: Queued)
    requires QueueOk(s) && e in Start(s, h, now).0.queue
    ensures Entered(s, OpStart(h, now), e)
  {
    hide Sorted, Waiting, Process, SortQueue, Before;
    FoundIff(s.queue, h);
    assert e in s.queue ==> e.infoHash in Waiting(s.queue);
    if h in s.paused {
      if e !in s.queue { SortedFrom([Queued(h, High, now, s.nextPosition)] + s.queue, e); }
    } else {
      var i := FindQueued(s.queue, h);
      if i < |s.queue| {
        var r := s.queue[i].(priority := High, addedAt := now);
        ProcessedFrom(s.(queue := SortQueue(s.queue[i := r])), e);
        SortedFrom(s.queue[i := r], e);
        UpdatedEntry(s.queue, i, r, e);
      }
    }
  }

  lemma SetPriorityEnters(s: State, h: Hash, p: Priority, e: Queued)
    requires QueueOk(s) && e in SetPriority(s, h, p).0.queue
    ensures Entered(s, OpSetPriority(h, p), e)
  {
    hide Sorted, Waiting, Process, SortQueue, Before;
    var i := FindQueued(s.queue, h);
    if i < |s.queue| {
      var r := s.queue[i].(priority := p);
      if s.queue[i].priority != p { SortedFrom(s.queue[i := r], e); }
      assert s.queue[i].priority == p ==> s.queue[i := r] == s.queue;
      UpdatedEntry(s.queue, i, r, e);
    } else {
      FoundIff(s.queue, h);
      assert e.infoHash in Waiting(s.queue);
    }
  }

  /** In every run, moves or not, whatever waits has the priority and the time that were asked for it. */
  lemma {:induction false} EveryRunAsAsked(maxConcurrent: nat, ops: seq<Op>)
    ensures AsAsked(Run(maxConcurrent, ops).queue, ops)
  {
    if ops != [] {
      hide QueueOk, Step, Known, Entered, AsAsked;
      var front, op := ops[..|ops| - 1], ops[|ops| - 1];
      var s := Run(maxConcurrent, front);
      EveryRunAsAsked(maxConcurrent, front);
      EveryRunOk(maxConcurrent, front);
      assert ops == front + [op];
      StepAsAsked(s, front, op);
    }
  }

  lemma StepAsAsked(s: State, ops: seq<Op>, op: Op)
    requires QueueOk(s) && Known(s) == Expected(ops) && AsAsked(s.queue, ops)
    ensures AsAsked(Step(s, op).queue, ops + [op])
  {
    hide QueueOk, Step;
    assert (ops + [op])[..|ops|] == ops;
    forall e | e in Step(s, op).queue ensures Asked(ops + [op], e.infoHash) == Some(Wish(e.priority, e.addedAt)) {
      StepEnters(s, op, e);
      AskedIff(ops, e.infoHash);
      StepKeepsWaiting(s, op, e);
    }
  }

  /** What waits after a step is known after it. */
  lemma StepKeepsWaiting(s: State, op: Op, e: Queued)
    requires QueueOk(s) && e in Step(s, op).queue
    ensures e.infoHash in Known(Step(s, op)) && (op.OpStart? ==> e.infoHash in Known(s))
  {
    hide Step, QueueOk;
    StepKeeps(s, op);
  }

  /**
   In every run without moves: whatever a step makes active, nothing that waits after the step was asked for more
   urgently, by the operations so far.
   */
  lemma StartedFirst(maxConcurrent: nat, ops: seq<Op>, op: Op, h: Hash, w: Hash)
    requires !op.OpMove? && forall i :: 0 <= i < |ops| ==> !ops[i].OpMove?
    requires var s, t := Run(maxConcurrent, ops), Run(maxConcurrent, ops + [op]);
             h in t.active && h !in s.active && w in Waiting(t.queue)
    ensures var a, b := Asked(ops + [op], h), Asked(ops + [op], w);
            a.Some? && b.Some? && !MoreUrgent(b.value, a.value)
  {
    hide *;
    RunSnoc(maxConcurrent, ops, op);
    var s, t := Run(maxConcurrent, ops), Run(maxConcurrent, ops + [op]);
    EveryRunOk(maxConcurrent, ops);
    EveryRunInOrder(maxConcurrent, ops);
    EveryRunAsAsked(maxConcurrent, ops);
    EveryRunOk(maxConcurrent, ops + [op]);
    EveryRunAsAsked(maxConcurrent, ops + [op]);
    var j := WaitingOwner(t.queue, w);
    var e := StartedByStep(s, op, h, t.queue[j]);
    WishOf(t.queue, j, ops + [op]);
    ActiveKnown(t, h);
    AskedIff(ops + [op], h);
    StartedAsAsked(s, ops, op, h, e);
    NotMoreUrgent(t.queue[j], e);
  }

  lemma RunSnoc(maxConcurrent: nat, ops: seq<Op>, op: Op)
    ensures Run(maxConcurrent, ops + [op]) == Step(Run(maxConcurrent, ops), op)
  {
    assert (ops + [op])[..|ops|] == ops;
  }

  lemma WishOf(q: seq<Queued>, j: nat, ops: seq<Op>)
    requires AsAsked(q, ops) && j < |q|
    ensures Asked(ops, q[j].infoHash) == Some(Wish(q[j].priority, q[j].addedAt))
  {
    assert q[j] in q;
  }

  lemma ActiveKnown(s: State, h: Hash)
    requires h in s.active
    ensures h in Known(s)
  {
  }

  lemma NotMoreUrgent(w: Queued, e: Queued)
    requires !Before()(w, e)
    ensures !MoreUrgent(Wish(w.priority, w.addedAt), Wish(e.priority, e.addedAt))
  {
  }

  lemma StartedAsAsked(s: State, ops: seq<Op>, op: Op, h: Hash, e: Queued)
    requires AsAsked(s.queue, ops) && e in s.queue && e.infoHash == h && !op.OpStart?
    requires h in Step(s, op).active && h !in s.active && Asked(ops + [op], h).Some?
    ensures Asked(ops + [op], h) == Some(Wish(e.priority, e.addedAt))
  {
    assert (ops + [op])[..|ops|] == ops;
    hide Process, SortQueue, FindQueued;
  }

  // ---------------------------------------------------------------- the place each torrent goes to

  /** The active torrents that a step leaves active, in their order. */
  ghost function StaysActive(s: State, op: Op): seq<Hash> {
    match op
    case OpRemove(h) => Delete(s.active, h)
    case OpPause(h) => Delete(s.active, h)
    case OpComplete(h) => Delete(s.active, h)
    case OpSetMax(max) => if 1 <= max < |s.active| then s.active[..max] else s.active
    case _ => s.active
  }

  ghost function PausedAfter(s: State, op: Op): set<Hash> {
    match op
    case OpAdd(h, _, true, _) => if h in Known(s) then s.paused else s.paused + {h}
    case OpRemove(h) => s.paused - {h}
    case OpStart(h, _) => s.paused - {h}
    case OpPause(h) => if h in s.active then s.paused + {h} else s.paused
    case OpSetMax(max) => if 1 <= max < |s.active| then s.paused + Running(s.active[max..]) else s.paused
    case _ => s.paused
  }

  ghost function CompletedAfter(s: State, op: Op): set<Hash> {
    match op
    case OpRemove(h) => s.completed - {h}
    case OpComplete(h) => if h in s.active then s.completed + {h} else s.completed
    case _ => s.completed
  }

  /** How a torrent that was not active may have come to be active. */
  ghost predicate MayStart(s: State, op: Op, h: Hash) {
    || h in Waiting(s.queue)
    || (op.OpAdd? && h == op.h && !op.startPaused)
    || (op.OpStart? && h == op.h && h in s.paused)
  }

  ghost predicate Placed(s: State, op: Op, t: State) {
    && t.paused == PausedAfter(s, op) && t.completed == CompletedAfter(s, op) && StaysActive(s, op) <= t.active
    && forall h :: h in t.active && h !in s.active ==> MayStart(s, op, h)
  }

  /**
   Where every step takes the torrents: exactly which are paused and completed after it, and that the active ones are
   those it leaves active, in their order, and behind them new ones: what waited, what was added with room, and what was
   paused and is started. All other known torrents wait.
   */
  lemma Places(s: State, op: Op)
    requires QueueOk(s)
    ensures var t := Step(s, op);
            Placed(s, op, t) && Waiting(t.queue) == Known(t) - Running(t.active) - t.paused - t.completed
  {
    StepKeeps(s, op);
    StepSplit(Step(s, op));
    StepPlaces(s, op);
  }

  lemma StepPlaces(s: State, op: Op)
    requires QueueOk(s)
    ensures Placed(s, op, Step(s, op))
  {
    if (op.OpRemove? || op.OpPause? || op.OpComplete?) && op.h in s.active {
      LeavePlaces(s, op);
    } else if op.OpAdd? {
      AddPlaces(s, op);
    } else {
      hide QueueOk, Waiting, Process, SortQueue, PauseAll, Delete, FindQueued, Start, SetMaxConcurrent;
      match op
      case OpStart(h, now) => StartPlaces(s, h, now);
      case OpSetMax(max) => SetMaxPlaces(s, max);
      case _ =>
    }
  }

  lemma AddPlaces(s: State, op: Op)
    requires QueueOk(s) && op.OpAdd?
    ensures Placed(s, op, Step(s, op))
  {
    hide QueueOk, Waiting, SortQueue, FindQueued;
    FoundIff(s.queue, op.h);
  }

  /** An active torrent is removed, paused or complete. */
  lemma LeavePlaces(s: State, op: Op)
    requires QueueOk(s) && (op.OpRemove? || op.OpPause? || op.OpComplete?) && op.h in s.active
    ensures Placed(s, op, Step(s, op))
  {
    DeleteIs(s.active, op.h);
    hide DistinctBy, Waiting, HashOf, Process, Delete, NoneTwice, QueueOk;
    match op
    case OpRemove(h) => ProcessPlaces(s.(active := Delete(s.active, h)));
    case OpPause(h) => ProcessPlaces(s.(active := Delete(s.active, h), paused := s.paused + {h}));
    case OpComplete(h) => ProcessPlaces(s.(active := Delete(s.active, h), completed := s.completed + {h}));
  }

  lemma StepSplit(t: State)
    requires QueueOk(t)
    ensures Waiting(t.queue) == Known(t) - Running(t.active) - t.paused - t.completed
  {
    hide Waiting, DistinctBy;
  }

  lemma ProcessPlaces(s: State)
    ensures var t := Process(s);
            && t.paused == s.paused && t.completed == s.completed && s.active <= t.active
            && forall h :: h in t.active && h !in s.active ==> h in Waiting(s.queue)
  {
    ProcessStarts(s);
    hide Process;
    var m := Startable(s);
    forall h | h in Hashes(s.queue[..m]) ensures h in Waiting(s.queue) {
      var i := HashIn(s.queue[..m], h);
      assert s.queue[i].infoHash == h;
    }
  }

  lemma StartPlaces(s: State, h: Hash, now: int)
    requires QueueOk(s)
    ensures var t := Start(s, h, now).0;
            && t.paused == s.paused - {h} && t.completed == s.completed && s.active <= t.active
            && forall x :: x in t.active && x !in s.active ==> x in Waiting(s.queue) || (x == h && h in s.paused)
  {
    hide DistinctBy, Waiting, HashOf, Process, SortQueue, Sorted, Before;
    FoundIff(s.queue, h);
    var i := FindQueued(s.queue, h);
    if h !in s.paused && i < |s.queue| {
      var r := s.queue[i].(priority := High, addedAt := now);
      UpdateWaits(s.queue, i, r);
      ProcessPlaces(s.(queue := SortQueue(s.queue[i := r])));
    }
  }

  lemma SetMaxPlaces(s: State, max: int)
    requires QueueOk(s)
    ensures var op := OpSetMax(max);
            var t := Step(s, op);
            && t.paused == PausedAfter(s, op) && t.completed == s.completed && StaysActive(s, op) <= t.active
            && forall h :: h in t.active && h !in s.active ==> h in Waiting(s.queue)
  {
    hide DistinctBy, Waiting, HashOf, Process, SortQueue, PauseAll, Sorted, Before;
    if max > s.maxConcurrent {
      ProcessPlaces(s.(maxConcurrent := max));
    } else if 1 <= max < |s.active| {
      PauseExcess(s.(maxConcurrent := max), max);
    }
  }

  // ---------------------------------------------------------------- equal priority and time

  /**
   Sorting leaves entries of equal priority and time as they stood: a new entry comes behind all of its kind, and a
   paused torrent that is started when there is no room comes before them, as it is put in front of the queue first.
   */
  lemma EqualsInOrder(q: seq<Queued>, e: Queued)
    ensures Ties(SortQueue(q + [e]), e, Before()) == Ties(q, e, Before()) + [e]
    ensures Ties(SortQueue([e] + q), e, Before()) == [e] + Ties(q, e, Before())
  {
    BeforeOrders();
    SortStable(q + [e], e, Before());
    SortStable([e] + q, e, Before());
    TiesSnoc(q, e, e, Before());
    TiesCons(q, e);
  }

  lemma {:induction false} TiesCons(q: seq<Queued>, e: Queued)
    ensures Ties([e] + q, e, Before()) == [e] + Ties(q, e, Before())
  {
    if q == [] {
      assert [e] + q == [] + [e];
      TiesSnoc([], e, e, Before());
    } else {
      var front, last := q[..|q| - 1], q[|q| - 1];
      assert [e] + q == ([e] + front) + [last];
      TiesSnoc([e] + front, last, e, Before());
      TiesCons(front, e);
    }
  }
}
