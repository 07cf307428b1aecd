/** The queue manager as an object: every method does to its fields what the model's function says. */
module QueueManager {
  import opened Bytes
  import opened QueueModel
  import Model = QueueModel

  class QueueManager {
    var queue: seq<Queued>
    var active: seq<Hash>
    var paused: set<Hash>
    var completed: set<Hash>
    var maxConcurrent: nat
    var nextPosition: nat

    ghost function Now(): State
      reads this
    {
      State(queue, active, paused, completed, maxConcurrent, nextPosition)
    }

    ghost predicate Valid()
      reads this
    {
      QueueOk(Now())
    }

    constructor (maxConcurrent: nat)
      ensures Now() == Initial(maxConcurrent) && Valid()
    {
      queue, active, paused, completed := [], [], {}, {};
      this.maxConcurrent := if maxConcurrent == 0 then 3 else maxConcurrent;
      nextPosition := 0;
    }

    method Add(infoHash: Hash, priority: Priority, startPaused: bool, now: int) returns (r: Result<(), Error>)
      requires Valid()
      modifies this
      ensures Valid()
      ensures match Model.Add(old(Now()), infoHash, priority, startPaused, now)
              case Ok(s) => r == Ok(()) && Now() == s
              case Err(e) => r == Err(e) && Now() == old(Now())
    {
      hide QueueOk, Exists, SortQueue;
      AddKeeps(Now(), infoHash, priority, startPaused, now);
      if Exists(State(queue, active, paused, completed, maxConcurrent, nextPosition), infoHash) {
        return Err(AlreadyExists);
      }
      var queuedTorrent := Queued(infoHash, priority, now, nextPosition);
      nextPosition := nextPosition + 1;
      if startPaused {
        paused := paused + {infoHash};
      } else if |active| < maxConcurrent {
        active := active + [infoHash];
      } else {
        queue := SortQueue(queue + [queuedTorrent]);
      }
      return Ok(());
    }

    /** _processQueue: starts torrents from the head of the queue while there is room. */
    method ProcessQueue()
      modifies this`queue, this`active
      ensures Now() == Process(old(Now()))
    {
      while |active| < maxConcurrent && |queue| > 0
        invariant Process(Now()) == Process(old(Now()))
        decreases |queue|
      {
        var queuedTorrent := queue[0];
        queue := queue[1..];
        active := active + [queuedTorrent.infoHash];
      }
    }

    method Remove(infoHash: Hash) returns (removed: bool)
      requires Valid()
      modifies this
      ensures Valid() && (Now(), removed) == Model.Remove(old(Now()), infoHash)
    {
      hide QueueOk, Process;
      RemoveKeeps(Now(), infoHash);
      removed := false;
      if infoHash in active {
        active := Delete(active, infoHash);
        removed := true;
        ProcessQueue();
      }
      if infoHash in paused {
        removed := true;
      }
      paused := paused - {infoHash};
      if infoHash in completed {
        removed := true;
      }
      completed := completed - {infoHash};
      var queueIndex := FindQueued(queue, infoHash);
      if queueIndex < |queue| {
        queue := queue[..queueIndex] + queue[queueIndex + 1..];
        removed := true;
      }
    }

    method Start(infoHash: Hash, now: int) returns (started: bool)
      requires Valid()
      modifies this
      ensures Valid() && (Now(), started) == Model.Start(old(Now()), infoHash, now)
    {
      hide QueueOk, Process, SortQueue;
      StartKeeps(Now(), infoHash, now);
      if infoHash in paused {
        paused := paused - {infoHash};
        if |active| < maxConcurrent {
          active := active + [infoHash];
        } else {
          var queuedTorrent := Queued(infoHash, High, now, nextPosition);
          nextPosition := nextPosition + 1;
          queue := SortQueue([queuedTorrent] + queue);
        }
        return true;
      }
      var queueIndex := FindQueued(queue, infoHash);
      if queueIndex < |queue| {
        queue := queue[queueIndex := queue[queueIndex].(priority := High, addedAt := now)];
        queue := SortQueue(queue);
        ProcessQueue();
        return true;
      }
      return false;
    }

    method Pause(infoHash: Hash) returns (done: bool)
      modifies this
      ensures (Now(), done) == Model.Pause(old(Now()), infoHash)
    {
      hide Process;
      if infoHash !in active { return false; }
      active := Delete(active, infoHash);
      paused := paused + {infoHash};
      ProcessQueue();
      return true;
    }

    method SetMaxConcurrent(max: int) returns (r: Result<(), Error>)
      requires Valid()
      modifies this
      ensures Valid()
      ensures match Model.SetMaxConcurrent(old(Now()), max)
              case Ok(s) => r == Ok(()) && Now() == s
              case Err(e) => r == Err(e) && Now() == old(Now())
    {
      hide QueueOk, Process, Model.Pause;
      SetMaxKeeps(Now(), max);
      if max < 1 { return Err(BadLimit); }
      var oldMax := maxConcurrent;
      maxConcurrent := max;
      if max > oldMax {
        ProcessQueue();
      } else if max < oldMax && |active| > max {
        var toMove := active[max..];
        ghost var target := PauseAll(Now(), toMove);
        assert toMove[0..] == toMove;
        for i := 0 to |toMove|
          invariant PauseAll(Now(), toMove[i..]) == target
        {
          assert toMove[i..][1..] == toMove[i + 1..];
          var _ := this.Pause(toMove[i]);
        }
      }
      return Ok(());
    }

    method SetPriority(infoHash: Hash, priority: Priority) returns (found: bool)
      requires Valid()
      modifies this`queue
      ensures Valid() && (Now(), found) == Model.SetPriority(old(Now()), infoHash, priority)
    {
      hide QueueOk, SortQueue;
      SetPriorityKeeps(Now(), infoHash, priority);
      var queueIndex := FindQueued(queue, infoHash);
      if queueIndex >= |queue| { return false; }
      if queue[queueIndex].priority == priority { return true; }
      queue := SortQueue(queue[queueIndex := queue[queueIndex].(priority := priority)]);
      return true;
    }

    method MoveInQueue(infoHash: Hash, newPosition: int) returns (r: Result<(), Error>)
      requires Valid()
      modifies this`queue
      ensures Valid()
      ensures match Model.MoveInQueue(old(Now()), infoHash, newPosition)
              case Ok(s) => r == Ok(()) && Now() == s
              case Err(e) => r == Err(e) && Now() == old(Now())
    {
      hide QueueOk;
      MoveKeeps(Now(), infoHash, newPosition);
      var queueIndex := FindQueued(queue, infoHash);
      if queueIndex >= |queue| { return Err(NotQueued); }
      if newPosition < 0 || newPosition >= |queue| { return Err(BadPosition); }
      var queuedTorrent := queue[queueIndex];
      queue := queue[..queueIndex] + queue[queueIndex + 1..];
      queue := queue[..newPosition] + [queuedTorrent] + queue[newPosition..];
      return Ok(());
    }

    method OnTorrentComplete(infoHash: Hash)
      requires Valid()
      modifies this
      ensures Valid() && Now() == Complete(old(Now()), infoHash)
    {
      hide QueueOk, Process;
      CompleteKeeps(Now(), infoHash);
      if infoHash !in active { return; }
      active := Delete(active, infoHash);
      completed := completed + {infoHash};
      ProcessQueue();
    }
  }
}
