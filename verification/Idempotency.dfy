/**
 The idempotency guard, for all the requests that carry one id, on any number of pods. The Redis key of the id is
 shared; every request is at some point of the guard, and the commands it has sent to Redis but that have not arrived
 yet are queued in order, since a pod talks to Redis over one connection. Redis is reachable and the key does not
 expire.
 */
module Idempotency {
  import opened Bytes

  /** A JSON value, given by its text; `RawObject(t)` is the object {raw: t}. */
  datatype Json = Value(text: string) | RawObject(raw: string)

  /**
   How a handler answers: res.json, or res.send with an object; res.send with a string, `parsed` being what JSON.parse
   makes of it; anything else, such as a stream.
   */
  datatype Reply =
    | JsonReply(status: int, body: Json)
    | TextReply(status: int, text: string, parsed: Option<Json>)
    | OtherReply(status: int)

  datatype Entry = InFlight | Completed(statusCode: int, body: Json)

  datatype Command = SetCompleted(statusCode: int, body: Json) | Del

  /**
   Asked: before the GET. Missed: the GET found nothing. Running: the SET NX succeeded and the handler runs. Responded:
   the handler has answered. Finished: the finish event was handled. Released: the DEL it sent has arrived.
   */
  datatype Phase =
    | Asked
    | Missed
    | Refused
    | Replayed(statusCode: int, body: Json)
    | Running
    | Responded(reply: Reply)
    | Finished(reply: Reply)
    | Released(reply: Reply)

  datatype Request = Request(phase: Phase, pending: seq<Command>)

  datatype State = State(key: Option<Entry>, requests: seq<Request>)

  datatype Op = Arrive | Get(i: nat) | Claim(i: nat) | Respond(i: nat, reply: Reply) | Finish(i: nat) | Deliver(i: nat)

  /** What the guard stores for an answer, if anything. */
  function Stored(r: Reply): Option<Json> {
    match r
    case JsonReply(_, body) => Some(body)
    case TextReply(_, text, parsed) => if parsed.Some? then parsed else Some(RawObject(text))
    case OtherReply(_) => None
  }

  /** res.json stores the body and then calls res.send with its text, which stores it again. */
  function Sets(r: Reply): seq<Command> {
    match r
    case JsonReply(status, body) => [SetCompleted(status, body), SetCompleted(status, body)]
    case TextReply(status, _, _) => [SetCompleted(status, Stored(r).value)]
    case OtherReply(_) => []
  }

  function AtFinish(r: Reply): seq<Command> {
    if r.status >= 500 then [Del] else []
  }

  function With(s: State, i: nat, r: Request): State
    requires i < |s.requests|
  {
    s.(requests := s.requests[i := r])
  }

  function Step(s: State, op: Op): State {
    match op
    case Arrive => s.(requests := s.requests + [Request(Asked, [])])
    case Get(i) =>
      if i < |s.requests| && s.requests[i].phase.Asked? then With(s, i, Request(Answer(s.key), [])) else s
    case Claim(i) =>
      if i < |s.requests| && s.requests[i].phase.Missed? then
        if s.key.None? then With(s.(key := Some(InFlight)), i, Request(Running, []))
        else With(s, i, Request(Refused, []))
      else s
    case Respond(i, reply) =>
      if i < |s.requests| && s.requests[i].phase.Running? then
        With(s, i, Request(Responded(reply), s.requests[i].pending + Sets(reply)))
      else s
    case Finish(i) =>
      if i < |s.requests| && s.requests[i].phase.Responded? then
        var reply := s.requests[i].phase.reply;
        With(s, i, Request(Finished(reply), s.requests[i].pending + AtFinish(reply)))
      else s
    case Deliver(i) =>
      if i < |s.requests| && s.requests[i].pending != [] then Arrived(s, i) else s
  }

  /** What the guard decides from the GET. */
  function Answer(key: Option<Entry>): Phase {
    if key.None? then Missed
    else if key.value.InFlight? then Refused
    else Replayed(key.value.statusCode, key.value.body)
  }

  /** The oldest command that request i has sent takes effect. */
  function Arrived(s: State, i: nat): State
    requires i < |s.requests| && s.requests[i].pending != []
  {
    var r := s.requests[i];
    match r.pending[0]
    case SetCompleted(status, body) => With(s.(key := Some(Completed(status, body))), i, r.(pending := r.pending[1..]))
    case Del =>
      var phase := if r.phase.Finished? then Released(r.phase.reply) else r.phase;
      With(s.(key := None), i, Request(phase, r.pending[1..]))
  }

  function Run(ops: seq<Op>): State {
    if ops == [] then State(None, []) else Step(Run(ops[..|ops| - 1]), ops[|ops| - 1])
  }

  // ---------------------------------------------------------------- the invariant

  /** Between claim and finish. */
  predicate Executing(p: Phase) {
    p.Running? || p.Responded?
  }

  /** The key is this request's: it was claimed, and no DEL has arrived since. */
  predicate Holding(p: Phase) {
    Executing(p) || p.Finished?
  }

  /** A handler was run for this request. */
  predicate Executed(p: Phase) {
    Holding(p) || p.Released?
  }

  predicate Answered(p: Phase) {
    p.Responded? || p.Finished? || p.Released?
  }

  predicate OnlySets(c: seq<Command>, r: Reply) {
    forall k :: 0 <= k < |c| ==> Stored(r).Some? && c[k] == SetCompleted(r.status, Stored(r).value)
  }

  /** The commands left after the finish event: SETs, and a DEL behind them if the answer was a server error. */
  predicate EndsRight(c: seq<Command>, r: Reply) {
    if r.status >= 500 then c != [] && c[|c| - 1] == Del && OnlySets(c[..|c| - 1], r) else OnlySets(c, r)
  }

  /** The key still says in flight only while there is nothing to store or the first SET has not arrived. */
  predicate EntryOf(e: Entry, c: seq<Command>, r: Reply) {
    if e.InFlight? then Stored(r).Some? ==> c != [] && c[0].SetCompleted?
    else Stored(r).Some? && e == Completed(r.status, Stored(r).value)
  }

  /** What a request may still have under way, given the key. */
  ghost predicate RequestOk(r: Request, key: Option<Entry>) {
    && (!Holding(r.phase) ==> r.pending == [])
    && (Holding(r.phase) ==> key.Some?)
    && (r.phase.Running? ==> r.pending == [] && key == Some(InFlight))
    && (r.phase.Responded? ==> OnlySets(r.pending, r.phase.reply) && EntryOf(key.value, r.pending, r.phase.reply))
    && (r.phase.Finished? ==> EndsRight(r.pending, r.phase.reply) && EntryOf(key.value, r.pending, r.phase.reply))
  }

  /** A replayed answer is the stored form of an answer that some execution gave. */
  ghost predicate Produced(s: State, status: int, body: Json) {
    exists j :: 0 <= j < |s.requests| && Answered(s.requests[j].phase)
      && s.requests[j].phase.reply.status == status && Stored(s.requests[j].phase.reply) == Some(body)
  }

  ghost predicate Ok(s: State) {
    && (forall i :: 0 <= i < |s.requests| ==> RequestOk(s.requests[i], s.key))
    && (forall i, j | 0 <= i < |s.requests| && 0 <= j < |s.requests| ::
          Holding(s.requests[i].phase) && Holding(s.requests[j].phase) ==> i == j)
    && (s.key.Some? ==> exists i :: 0 <= i < |s.requests| && Holding(s.requests[i].phase))
    && (forall i :: 0 <= i < |s.requests| && s.requests[i].phase.Replayed? ==>
          Produced(s, s.requests[i].phase.statusCode, s.requests[i].phase.body))
  }

  /** Answers are never taken back. */
  ghost predicate AnswersStay(s: State, t: State) {
    && |s.requests| <= |t.requests|
    && forall j :: 0 <= j < |s.requests| && Answered(s.requests[j].phase) ==>
         Answered(t.requests[j].phase) && t.requests[j].phase.reply == s.requests[j].phase.reply
  }

  lemma ProducedStays(s: State, t: State, status: int, body: Json)
    requires Produced(s, status, body) && AnswersStay(s, t)
    ensures Produced(t, status, body)
  {
    var j :| 0 <= j < |s.requests| && Answered(s.requests[j].phase)
      && s.requests[j].phase.reply.status == status && Stored(s.requests[j].phase.reply) == Some(body);
    assert Answered(t.requests[j].phase);
  }

  /** What a step that changes request i and the key must respect. */
  lemma Changed(s: State, i: nat, r: Request, key: Option<Entry>)
    requires Ok(s) && i < |s.requests|
    requires RequestOk(r, key)
    requires key != s.key ==> Holding(s.requests[i].phase) || s.key.None?
    requires Holding(r.phase) && !Holding(s.requests[i].phase) ==> s.key.None?
    requires key.Some? ==> Holding(r.phase) || (s.key.Some? && !Holding(s.requests[i].phase))
    requires Answered(s.requests[i].phase) ==> Answered(r.phase) && r.phase.reply == s.requests[i].phase.reply
    requires r.phase.Replayed? ==> Produced(s, r.phase.statusCode, r.phase.body)
    ensures Ok(With(s.(key := key), i, r))
  {
    var t := With(s.(key := key), i, r);
    assert AnswersStay(s, t);
    forall j | 0 <= j < |t.requests|
      ensures RequestOk(t.requests[j], t.key)
      ensures Holding(t.requests[j].phase) && Holding(r.phase) ==> j == i
      ensures t.requests[j].phase.Replayed? ==> Produced(t, t.requests[j].phase.statusCode, t.requests[j].phase.body)
    {
      if j != i { assert t.requests[j] == s.requests[j] && RequestOk(s.requests[j], s.key); }
      if t.requests[j].phase.Replayed? {
        ProducedStays(s, t, t.requests[j].phase.statusCode, t.requests[j].phase.body);
      }
    }
    if key.Some? && !Holding(r.phase) {
      var h :| 0 <= h < |s.requests| && Holding(s.requests[h].phase);
      assert Holding(t.requests[h].phase);
    } else {
      assert t.requests[i] == r;
    }
  }

  lemma ArriveKeeps(s: State)
    requires Ok(s)
    ensures Ok(Step(s, Arrive))
  {
    var t := Step(s, Arrive);
    assert AnswersStay(s, t);
    forall j | 0 <= j < |t.requests|
      ensures RequestOk(t.requests[j], t.key)
      ensures t.requests[j].phase.Replayed? ==> Produced(t, t.requests[j].phase.statusCode, t.requests[j].phase.body)
    {
      if j < |s.requests| { assert t.requests[j] == s.requests[j] && RequestOk(s.requests[j], s.key); }
      if t.requests[j].phase.Replayed? {
        ProducedStays(s, t, t.requests[j].phase.statusCode, t.requests[j].phase.body);
      }
    }
    if s.key.Some? {
      var h :| 0 <= h < |s.requests| && Holding(s.requests[h].phase);
      assert Holding(t.requests[h].phase);
    }
  }

  /** A completed entry was stored by the one who holds the key. */
  lemma EntryProduced(s: State)
    requires Ok(s) && s.key.Some? && s.key.value.Completed?
    ensures Produced(s, s.key.value.statusCode, s.key.value.body)
  {
    var h :| 0 <= h < |s.requests| && Holding(s.requests[h].phase);
    assert RequestOk(s.requests[h], s.key);
    assert Answered(s.requests[h].phase);
  }

  lemma GetKeeps(s: State, i: nat)
    requires Ok(s) && i < |s.requests| && s.requests[i].phase.Asked?
    ensures Ok(Step(s, Get(i)))
  {
    if s.key.Some? && s.key.value.Completed? { EntryProduced(s); }
    hide Ok, Produced;
    Changed(s, i, Request(Answer(s.key), []), s.key);
  }

  lemma SetsAreSets(r: Reply)
    ensures OnlySets(Sets(r), r)
  {
    if Stored(r).Some? {
      var c := SetCompleted(r.status, Stored(r).value);
      assert Sets(r) == if r.JsonReply? then [c, c] else [c];
      assert forall k :: 0 <= k < |Sets(r)| ==> Sets(r)[k] == c;
    } else {
      assert Sets(r) == [];
    }
  }

  lemma RespondKeeps(s: State, i: nat, reply: Reply)
    requires Ok(s) && i < |s.requests| && s.requests[i].phase.Running?
    ensures Ok(Step(s, Respond(i, reply)))
  {
    assert RequestOk(s.requests[i], s.key);
    assert s.requests[i].pending + Sets(reply) == Sets(reply);
    SetsAreSets(reply);
    hide Ok;
    Changed(s, i, Request(Responded(reply), s.requests[i].pending + Sets(reply)), s.key);
  }

  lemma FinishKeeps(s: State, i: nat)
    requires Ok(s) && i < |s.requests| && s.requests[i].phase.Responded?
    ensures Ok(Step(s, Finish(i)))
  {
    var r := s.requests[i];
    assert RequestOk(r, s.key);
    var reply := r.phase.reply;
    assert reply.status >= 500 ==> (r.pending + [Del])[..|r.pending|] == r.pending;
    assert r.pending + [] == r.pending;
    hide Ok;
    Changed(s, i, Request(Finished(reply), r.pending + AtFinish(reply)), s.key);
  }

  lemma RestEndsRight(c: seq<Command>, r: Reply)
    requires EndsRight(c, r) && c != [] && c[0].SetCompleted?
    ensures EndsRight(c[1..], r)
  {
    if r.status >= 500 { assert c[1..][..|c| - 2] == c[..|c| - 1][1..]; }
  }

  lemma DeliverKeeps(s: State, i: nat)
    requires Ok(s) && i < |s.requests| && s.requests[i].pending != []
    ensures Ok(Step(s, Deliver(i)))
  {
    var r := s.requests[i];
    assert RequestOk(r, s.key);
    hide Ok;
    match r.pending[0]
    case SetCompleted(status, body) =>
      if r.phase.Finished? { RestEndsRight(r.pending, r.phase.reply); }
      Changed(s, i, r.(pending := r.pending[1..]), Some(Completed(status, body)));
    case Del =>
      assert r.phase.Finished? && |r.pending| == 1;
      Changed(s, i, Request(Released(r.phase.reply), r.pending[1..]), None);
  }

  lemma StepKeeps(s: State, op: Op)
    requires Ok(s)
    ensures Ok(Step(s, op))
  {
    match op
    case Arrive => ArriveKeeps(s);
    case Get(i) => if i < |s.requests| && s.requests[i].phase.Asked? { GetKeeps(s, i); }
    case Claim(i) =>
      if i < |s.requests| && s.requests[i].phase.Missed? {
        if s.key.None? {
          Changed(s, i, Request(Running, []), Some(InFlight));
        } else {
          Changed(s, i, Request(Refused, []), s.key);
        }
      }
    case Respond(i, reply) => if i < |s.requests| && s.requests[i].phase.Running? { RespondKeeps(s, i, reply); }
    case Finish(i) => if i < |s.requests| && s.requests[i].phase.Responded? { FinishKeeps(s, i); }
    case Deliver(i) => if i < |s.requests| && s.requests[i].pending != [] { DeliverKeeps(s, i); }
  }

  lemma {:induction false} EveryRunOk(ops: seq<Op>)
    ensures Ok(Run(ops))
  {
    if ops != [] {
      EveryRunOk(ops[..|ops| - 1]);
      StepKeeps(Run(ops[..|ops| - 1]), ops[|ops| - 1]);
    }
  }

  // ---------------------------------------------------------------- what the guard promises

  /** At most one handler runs at a time, whatever the pods do. */
  lemma OneExecution(ops: seq<Op>, i: nat, j: nat)
    requires i < |Run(ops).requests| && j < |Run(ops).requests|
    requires Executing(Run(ops).requests[i].phase) && Executing(Run(ops).requests[j].phase)
    ensures i == j
  {
    EveryRunOk(ops);
  }

  /** A replayed answer is the stored form of one that an execution with this id gave. */
  lemma ReplayIsProduced(ops: seq<Op>, i: nat)
    requires i < |Run(ops).requests| && Run(ops).requests[i].phase.Replayed?
    ensures Produced(Run(ops), Run(ops).requests[i].phase.statusCode, Run(ops).requests[i].phase.body)
  {
    EveryRunOk(ops);
  }

  predicate Settled(s: State, i: nat) {
    i < |s.requests| && s.requests[i].phase.Finished? && s.requests[i].phase.reply.status < 500
  }

  /** Every execution in `t` is one that had started in `s`. */
  predicate NoneStarted(s: State, t: State) {
    && |s.requests| <= |t.requests|
    && forall j :: 0 <= j < |t.requests| && Executed(t.requests[j].phase) ==>
         j < |s.requests| && Executed(s.requests[j].phase)
  }

  lemma NoneStartedTwice(s: State, m: State, t: State)
    requires NoneStarted(s, m) && NoneStarted(m, t)
    ensures NoneStarted(s, t)
  {
    hide Executed;
  }

  lemma SettledStep(s: State, op: Op, i: nat)
    requires Ok(s) && Settled(s, i)
    ensures Settled(Step(s, op), i) && NoneStarted(s, Step(s, op))
  {
    assert RequestOk(s.requests[i], s.key);
    if op.Deliver? && op.i < |s.requests| && s.requests[op.i].pending != [] {
      assert RequestOk(s.requests[op.i], s.key);
    }
  }

  /** Once an execution has finished with a status below 500, no execution starts any more. */
  lemma {:induction false} NoneAfterSuccess(before: seq<Op>, later: seq<Op>, i: nat)
    requires Settled(Run(before), i)
    ensures var s, t := Run(before), Run(before + later);
            Settled(t, i) && NoneStarted(s, t)
    decreases |later|
  {
    if later == [] {
      assert before + later == before;
    } else {
      hide Step, Settled, Ok, NoneStarted;
      var front, op := later[..|later| - 1], later[|later| - 1];
      assert (before + later)[..|before + later| - 1] == before + front;
      NoneAfterSuccess(before, front, i);
      EveryRunOk(before + front);
      SettledStep(Run(before + front), op, i);
      NoneStartedTwice(Run(before), Run(before + front), Run(before + later));
    }
  }

  /** A retry that comes when the answer has been stored gets it; if nothing is stored, every retry is refused. */
  lemma RetryAfterSuccess(ops: seq<Op>, i: nat)
    requires Settled(Run(ops), i) && Run(ops).requests[i].pending == []
    ensures var reply := Run(ops).requests[i].phase.reply;
            Answer(Run(ops).key) == if Stored(reply).Some? then Replayed(reply.status, Stored(reply).value) else Refused
  {
    EveryRunOk(ops);
    assert RequestOk(Run(ops).requests[i], Run(ops).key);
  }

  /** A request that comes while nobody holds the key, such as the first one, runs its handler. */
  lemma FirstRequestRuns(ops: seq<Op>)
    requires forall j :: 0 <= j < |Run(ops).requests| ==> !Holding(Run(ops).requests[j].phase)
    ensures var s, n := Run(ops), |Run(ops).requests|;
            var t := Step(Step(Step(s, Arrive), Get(n)), Claim(n));
            && t.requests == s.requests + [Request(Running, [])] && t.key == Some(InFlight)
            && Executed(t.requests[n].phase) && !NoneStarted(s, t)
  {
    EveryRunOk(ops);
    var s, n := Run(ops), |Run(ops).requests|;
    hide Run, Ok;
    assert s.key == None;
    assert (s.requests + [Request(Asked, [])])[n := Request(Missed, [])] == s.requests + [Request(Missed, [])];
    assert (s.requests + [Request(Missed, [])])[n := Request(Running, [])] == s.requests + [Request(Running, [])];
  }

  /** A server error frees the key: its DEL is the last command under way, and once it has arrived the key is gone. */
  lemma FailureFrees(ops: seq<Op>, i: nat)
    requires i < |Run(ops).requests| && Run(ops).requests[i].phase.Finished?
    ensures var r := Run(ops).requests[i];
            && (r.phase.reply.status >= 500 <==> r.pending != [] && r.pending[|r.pending| - 1] == Del)
            && (r.pending == [Del] ==>
                  Step(Run(ops), Deliver(i)).key == None
                  && forall j :: 0 <= j < |Run(ops).requests| ==>
                       !Holding(Step(Run(ops), Deliver(i)).requests[j].phase))
  {
    EveryRunOk(ops);
    var s := Run(ops);
    hide Run;
    assert RequestOk(s.requests[i], s.key);
    if s.requests[i].pending == [Del] {
      DeliverKeeps(s, i);
      assert Step(s, Deliver(i)).key == None;
    }
  }

  /** After a server error, once its DEL has arrived, a retry runs the handler again. */
  lemma RetryAfterFailure(ops: seq<Op>, i: nat)
    requires i < |Run(ops).requests| && Run(ops).requests[i].phase.Missed?
    requires forall j :: 0 <= j < |Run(ops).requests| ==> !Holding(Run(ops).requests[j].phase)
    ensures Step(Run(ops), Claim(i)).requests[i].phase == Running
  {
    EveryRunOk(ops);
  }

  // ---------------------------------------------------------------- what a replay looks like

  /** The text the first client got. */
  function Sent(r: Reply, stringify: Json -> string): Option<string> {
    match r
    case JsonReply(_, body) => Some(stringify(body))
    case TextReply(_, text, _) => Some(text)
    case OtherReply(_) => None
  }

  /** A replay sends the same text as the first answer exactly when that was text in the form JSON.stringify writes. */
  lemma ReplayFaithful(r: Reply, stringify: Json -> string, parse: string -> Option<Json>)
    requires forall v :: parse(stringify(v)) == Some(v)
    requires r.TextReply? ==> r.parsed == parse(r.text)
    requires Stored(r).Some?
    ensures Sent(r, stringify) == Some(stringify(Stored(r).value))
       <==> exists v :: Sent(r, stringify) == Some(stringify(v))
  {
    if v :| Sent(r, stringify) == Some(stringify(v)) {
      assert parse(stringify(v)) == Some(v);
    }
  }

  /** A handler that sends plain text is replayed as an object: the text "created" comes back as {raw: "created"}. */
  lemma PlainTextChanges(stringify: Json -> string, parse: string -> Option<Json>)
    requires forall v :: parse(stringify(v)) == Some(v)
    requires parse("created") == None
    ensures var r := TextReply(201, "created", None);
            Stored(r) == Some(RawObject("created")) && Sent(r, stringify) != Some(stringify(Stored(r).value))
  {
    assert parse(stringify(RawObject("created"))) == Some(RawObject("created"));
  }

  // ---------------------------------------------------------------- the guard and its cache

  /** The key in Redis and the requests under way; each method is one step of one request. */
  class IdempotencyGuard {
    var key: Option<Entry>
    var requests: seq<Request>

    function View(): State
      reads this
    {
      State(key, requests)
    }

    constructor ()
      ensures View() == Run([])
    {
      key, requests := None, [];
    }

    method OnRequest()
      modifies this
      ensures View() == Step(old(View()), Arrive)
    {
      requests := requests + [Request(Asked, [])];
    }

    /** get, and what the guard does with its result. */
    method OnGet(i: nat)
      requires i < |requests| && requests[i].phase.Asked?
      modifies this
      ensures View() == Step(old(View()), Get(i)) && key == old(key)
    {
      var phase := Missed;
      if key.Some? {
        match key.value
        case InFlight => phase := Refused;
        case Completed(status, body) => phase := Replayed(status, body);
      }
      requests := requests[i := Request(phase, [])];
    }

    /** markInFlight: SET NX. */
    method MarkInFlight(i: nat) returns (acquired: bool)
      requires i < |requests| && requests[i].phase.Missed?
      modifies this
      ensures View() == Step(old(View()), Claim(i)) && (acquired <==> old(key).None?)
      ensures acquired <==> requests[i].phase.Running?
    {
      acquired := key.None?;
      if acquired {
        key := Some(InFlight);
        requests := requests[i := Request(Running, [])];
      } else {
        requests := requests[i := Request(Refused, [])];
      }
    }

    /** markCompleted: the SET leaves for Redis. */
    method MarkCompleted(i: nat, status: int, body: Json)
      requires i < |requests|
      modifies this
      ensures key == old(key)
      ensures var r := old(requests)[i];
              requests == old(requests)[i := r.(pending := r.pending + [SetCompleted(status, body)])]
    {
      requests := requests[i := requests[i].(pending := requests[i].pending + [SetCompleted(status, body)])];
    }

    /** The overridden res.json and res.send. */
    method Send(i: nat, reply: Reply)
      requires i < |requests| && requests[i].phase.Running?
      modifies this
      ensures View() == Step(old(View()), Respond(i, reply))
    {
      ghost var pending := requests[i].pending;
      match reply {
        case JsonReply(status, body) =>
          MarkCompleted(i, status, body);
          MarkCompleted(i, status, body);
          assert (pending + [SetCompleted(status, body)]) + [SetCompleted(status, body)] == pending + Sets(reply);
        case TextReply(status, text, parsed) =>
          if parsed.Some? {
            MarkCompleted(i, status, parsed.value);
          } else {
            MarkCompleted(i, status, RawObject(text));
          }
        case OtherReply(_) =>
          assert pending + [] == pending;
      }
      requests := requests[i := requests[i].(phase := Responded(reply))];
    }

    /** The finish event of the response. */
    method OnFinish(i: nat)
      requires i < |requests| && requests[i].phase.Responded?
      modifies this
      ensures View() == Step(old(View()), Finish(i))
    {
      var r := requests[i];
      assert r.pending + [] == r.pending;
      var pending := if r.phase.reply.status >= 500 then r.pending + [Del] else r.pending;
      requests := requests[i := Request(Finished(r.phase.reply), pending)];
    }

    /** Redis executes the oldest command request i has sent. */
    method OnDeliver(i: nat)
      requires i < |requests| && requests[i].pending != []
      modifies this
      ensures View() == Step(old(View()), Deliver(i))
    {
      var r := requests[i];
      match r.pending[0]
      case SetCompleted(status, body) =>
        key := Some(Completed(status, body));
        requests := requests[i := r.(pending := r.pending[1..])];
      case Del =>
        key := None;
        var phase := if r.phase.Finished? then Released(r.phase.reply) else r.phase;
        requests := requests[i := Request(phase, r.pending[1..])];
    }
  }
}
