/**
 The token bucket that limits bandwidth. Both directions run the same code on their own tokens and queue, so a
 direction is one `Lane`. Tokens are real numbers; time is a number of refills.
 */
module Throttler {
  import opened Bytes

  /** A request for `bytes` bytes; `id` counts requests in the order in which they reach the bucket. */
  datatype Request = Request(id: nat, bytes: nat)

  datatype Grant = Grant(request: Request, allowed: nat)

  datatype Lane = Lane(limit: real, tokens: real, queue: seq<Request>, granted: seq<Grant>, nextId: nat)

  function MinReal(a: real, b: real): real {
    if a < b then a else b
  }

  function Total(gs: seq<Grant>): nat {
    if gs == [] then 0 else Total(gs[..|gs| - 1]) + gs[|gs| - 1].allowed
  }

  lemma TotalSnoc(gs: seq<Grant>, g: Grant)
    ensures Total(gs + [g]) == Total(gs) + g.allowed
  {
    assert (gs + [g])[..|gs|] == gs;
  }

  // ---------------------------------------------------------------- one direction

  function Give(l: Lane, r: Request, allowed: nat, tokens: real): Lane {
    l.(tokens := tokens, granted := l.granted + [Grant(r, allowed)])
  }

  /** What a request finds at the bucket: everything, what is left, or the queue. */
  function Take(l: Lane, bytes: nat): Lane {
    var r := Request(l.nextId, bytes);
    var n := l.(nextId := l.nextId + 1);
    if l.tokens >= bytes as real then Give(n, r, bytes, l.tokens - bytes as real)
    else if l.tokens > 0.0 then Give(n, r, l.tokens.Floor, 0.0)
    else n.(queue := l.queue + [r])
  }

  /** A request in an unlimited direction. */
  function Pass(l: Lane, bytes: nat): Lane {
    Give(l.(nextId := l.nextId + 1), Request(l.nextId, bytes), bytes, l.tokens)
  }

  /** _processQueue */
  function Drain(l: Lane): Lane
    decreases |l.queue|
  {
    if |l.queue| > 0 && l.tokens > 0.0 then
      var r := l.queue[0];
      var rest := l.(queue := l.queue[1..]);
      if l.tokens >= r.bytes as real then Drain(Give(rest, r, r.bytes, l.tokens - r.bytes as real))
      else Give(rest, r, l.tokens.Floor, 0.0)
    else l
  }

  /** The body of the refill timer for one direction; `rate` is limit * interval / 1000. */
  function Refill(l: Lane, interval: nat): Lane {
    if l.limit > 0.0 then Drain(Filled(l, interval)) else l
  }

  function Rate(l: Lane, interval: nat): real {
    l.limit * (interval as real / 1000.0)
  }

  /** setDownloadLimit, setUploadLimit */
  function SetLimit(l: Lane, limit: real): Lane {
    l.(limit := limit, tokens := MinReal(l.tokens, limit))
  }

  // ---------------------------------------------------------------- what every lane keeps

  /** Requests are served in order: a waiting one is later than everything of positive size that was served. */
  ghost predicate Fair(l: Lane) {
    && (forall i :: 0 <= i < |l.queue| ==> l.queue[i].id < l.nextId && l.queue[i].bytes > 0)
    && (forall i, j :: 0 <= i < j < |l.queue| ==> l.queue[i].id < l.queue[j].id)
    && (forall i :: 0 <= i < |l.granted| ==> l.granted[i].request.id < l.nextId)
    && (forall i, j :: 0 <= i < |l.granted| && 0 <= j < |l.queue| && l.granted[i].request.bytes > 0 ==>
          l.granted[i].request.id < l.queue[j].id)
    && (forall i, j :: 0 <= i < j < |l.granted| && l.granted[i].request.bytes > 0 && l.granted[j].request.bytes > 0 ==>
          l.granted[i].request.id < l.granted[j].request.id)
  }

  /** Tokens between zero and the limit, and nobody waiting while there are any. */
  ghost predicate InBounds(l: Lane) {
    0.0 <= l.tokens <= l.limit && (l.queue != [] ==> l.tokens == 0.0)
  }

  ghost predicate LaneOk(l: Lane) {
    InBounds(l) && Fair(l)
  }

  /** Bytes granted so far plus tokens left. */
  function Worth(l: Lane): real {
    Total(l.granted) as real + l.tokens
  }

  /** All grants from the `k`th on are for the whole of what was asked. */
  ghost predicate GrantedWhole(gs: seq<Grant>, k: nat) {
    forall i :: k <= i < |gs| ==> gs[i].allowed == gs[i].request.bytes
  }

  /**
   From `l`, with `added` more tokens, to `t`: tokens are only turned into bytes. Every new grant is whole but perhaps
   the last, and one that is not leaves no tokens and loses less than one.
   */
  ghost predicate Paid(l: Lane, added: real, t: Lane) {
    && l.granted <= t.granted && Worth(l) + added - 1.0 < Worth(t) <= Worth(l) + added
    && (GrantedWhole(t.granted, |l.granted|) ==> Worth(t) == Worth(l) + added)
    && (forall i :: |l.granted| <= i < |t.granted| && t.granted[i].allowed != t.granted[i].request.bytes ==>
          i == |t.granted| - 1 && t.granted[i].allowed < t.granted[i].request.bytes && t.tokens == 0.0)
  }

  lemma PaidWhole(l: Lane, t: Lane, r: Request)
    requires t.granted == l.granted + [Grant(r, r.bytes)] && t.tokens == l.tokens - r.bytes as real
    ensures Paid(l, 0.0, t) && GrantedWhole(t.granted, |l.granted|)
  {
    TotalSnoc(l.granted, Grant(r, r.bytes));
  }

  lemma PaidPart(l: Lane, t: Lane, r: Request)
    requires 0.0 <= l.tokens < r.bytes as real
    requires t.granted == l.granted + [Grant(r, l.tokens.Floor)] && t.tokens == 0.0
    ensures Paid(l, 0.0, t)
  {
    TotalSnoc(l.granted, Grant(r, l.tokens.Floor));
    assert t.granted[|l.granted|] == Grant(r, l.tokens.Floor);
  }

  lemma PaidOn(a: Lane, x: real, b: Lane, c: Lane)
    requires a.granted <= b.granted && GrantedWhole(b.granted, |a.granted|) && Worth(b) == Worth(a) + x
    requires Paid(b, 0.0, c)
    ensures Paid(a, x, c)
  {
    hide Worth;
    assert forall i :: 0 <= i < |b.granted| ==> c.granted[i] == b.granted[i];
  }

  lemma GiveFair(l: Lane, r: Request, allowed: nat, tokens: real)
    requires Fair(l) && r.id < l.nextId
    requires forall j :: 0 <= j < |l.queue| && r.bytes > 0 ==> r.id < l.queue[j].id
    requires forall i :: 0 <= i < |l.granted| && l.granted[i].request.bytes > 0 && r.bytes > 0 ==>
              l.granted[i].request.id < r.id
    ensures Fair(Give(l, r, allowed, tokens))
  {
  }

  lemma GiveWorth(l: Lane, r: Request, allowed: nat, tokens: real)
    requires tokens + allowed as real <= l.tokens
    ensures Worth(Give(l, r, allowed, tokens)) <= Worth(l)
  {
    TotalSnoc(l.granted, Grant(r, allowed));
  }

  /** Serving a new request at once. */
  lemma ServeNew(l: Lane, bytes: nat, allowed: nat, tokens: real)
    requires Fair(l) && (l.queue == [] || bytes == 0)
    ensures Fair(Give(l.(nextId := l.nextId + 1), Request(l.nextId, bytes), allowed, tokens))
  {
    GiveFair(l.(nextId := l.nextId + 1), Request(l.nextId, bytes), allowed, tokens);
  }

  lemma Enqueue(l: Lane, bytes: nat)
    requires Fair(l) && bytes > 0
    ensures Fair(l.(nextId := l.nextId + 1, queue := l.queue + [Request(l.nextId, bytes)]))
  {
  }

  lemma TakeKeeps(l: Lane, bytes: nat)
    requires InBounds(l)
    ensures InBounds(Take(l, bytes)) && Take(l, bytes).limit == l.limit
    ensures Worth(Take(l, bytes)) <= Worth(l)
    ensures Fair(l) ==> Fair(Take(l, bytes))
  {
    hide Fair, Worth;
    var r := Request(l.nextId, bytes);
    var n := l.(nextId := l.nextId + 1);
    SameWorth(l, n);
    if l.tokens >= bytes as real {
      if Fair(l) { ServeNew(l, bytes, bytes, l.tokens - bytes as real); }
      GiveWorth(n, r, bytes, l.tokens - bytes as real);
    } else if l.tokens > 0.0 {
      if Fair(l) { ServeNew(l, bytes, l.tokens.Floor, 0.0); }
      GiveWorth(n, r, l.tokens.Floor, 0.0);
    } else {
      if Fair(l) { Enqueue(l, bytes); }
      SameWorth(l, n.(queue := l.queue + [r]));
    }
  }

  lemma TakePaid(l: Lane, bytes: nat)
    requires InBounds(l)
    ensures Paid(l, 0.0, Take(l, bytes))
  {
    var r, t := Request(l.nextId, bytes), Take(l, bytes);
    if l.tokens >= bytes as real {
      PaidWhole(l, t, r);
    } else if l.tokens > 0.0 {
      PaidPart(l, t, r);
    }
  }

  lemma SameWorth(a: Lane, b: Lane)
    requires a.granted == b.granted && a.tokens == b.tokens
    ensures Worth(a) == Worth(b)
  {
  }

  /** Serving the head of the queue. */
  lemma ServeHead(l: Lane, allowed: nat, tokens: real)
    requires l.queue != [] && tokens + allowed as real <= l.tokens
    ensures var next := Give(l.(queue := l.queue[1..]), l.queue[0], allowed, tokens);
            (Fair(l) ==> Fair(next)) && Worth(next) <= Worth(l)
  {
    var rest := l.(queue := l.queue[1..]);
    if Fair(l) { GiveFair(rest, l.queue[0], allowed, tokens); }
    GiveWorth(rest, l.queue[0], allowed, tokens);
  }

  lemma {:induction false} DrainKeeps(l: Lane)
    requires 0.0 <= l.tokens <= l.limit
    ensures InBounds(Drain(l)) && Drain(l).limit == l.limit
    ensures Worth(Drain(l)) <= Worth(l)
    ensures Fair(l) ==> Fair(Drain(l))
    decreases |l.queue|
  {
    hide Fair, Worth;
    if |l.queue| > 0 && l.tokens > 0.0 {
      var r := l.queue[0];
      if l.tokens >= r.bytes as real {
        ServeHead(l, r.bytes, l.tokens - r.bytes as real);
        DrainKeeps(Give(l.(queue := l.queue[1..]), r, r.bytes, l.tokens - r.bytes as real));
      } else {
        ServeHead(l, l.tokens.Floor, 0.0);
      }
    }
  }

  lemma RateSign(l: Lane, interval: nat)
    requires l.limit >= 0.0
    ensures Rate(l, interval) >= 0.0
    ensures l.limit > 0.0 && interval > 0 ==> Rate(l, interval) > 0.0
  {
    var t := interval as real / 1000.0;
    assert t >= 0.0;
    assert interval > 0 ==> t > 0.0;
  }

  /** The lane with its new tokens, before the queue is served. */
  function Filled(l: Lane, interval: nat): Lane {
    l.(tokens := MinReal(l.tokens + Rate(l, interval), l.limit))
  }

  lemma FilledOk(l: Lane, interval: nat)
    requires InBounds(l)
    ensures var f := Filled(l, interval);
            0.0 <= f.tokens <= f.limit && (Fair(l) ==> Fair(f)) && Worth(f) <= Worth(l) + Rate(l, interval)
  {
    RateSign(l, interval);
  }

  lemma RefillKeeps(l: Lane, interval: nat)
    requires InBounds(l)
    ensures InBounds(Refill(l, interval)) && Refill(l, interval).limit == l.limit
    ensures Worth(Refill(l, interval)) <= Worth(l) + Rate(l, interval)
    ensures Fair(l) ==> Fair(Refill(l, interval))
  {
    RateSign(l, interval);
    hide Worth, Fair, Rate;
    FilledOk(l, interval);
    DrainKeeps(Filled(l, interval));
  }

  lemma LimitKeeps(l: Lane, limit: nat)
    requires InBounds(l)
    ensures InBounds(SetLimit(l, limit as real)) && (Fair(l) ==> Fair(SetLimit(l, limit as real)))
  {
  }

  // ---------------------------------------------------------------- runs

  /** `OpWake(index)` is the moment at which a request that was held back by a pause notices that it is over. */
  datatype Op = OpAsk(bytes: nat) | OpWake(index: nat) | OpRefill | OpPause | OpResume | OpLimit(limit: nat)

  /** `held`: the sizes of the requests that wait for the end of a pause; they have not reached the bucket yet. */
  datatype State = State(lane: Lane, paused: bool, held: seq<nat>)

  predicate Wakes(s: State, op: Op) {
    op.OpWake? && !s.paused && op.index < |s.held|
  }

  function RemoveAt(held: seq<nat>, i: nat): seq<nat>
    requires i < |held|
  {
    held[..i] + held[i + 1..]
  }

  /** Whether a direction is unlimited is looked at when the request is made, and not again after a pause. */
  function Step(s: State, op: Op, interval: nat): State {
    match op
    case OpAsk(bytes) =>
      if s.lane.limit == 0.0 then s.(lane := Pass(s.lane, bytes))
      else if s.paused then s.(held := s.held + [bytes])
      else s.(lane := Take(s.lane, bytes))
    case OpWake(i) => if Wakes(s, op) then s.(lane := Take(s.lane, s.held[i]), held := RemoveAt(s.held, i)) else s
    case OpRefill => if s.paused then s else s.(lane := Refill(s.lane, interval))
    case OpPause => s.(paused := true)
    case OpResume => s.(paused := false)
    case OpLimit(limit) => s.(lane := SetLimit(s.lane, limit as real))
  }

  function Run(s: State, ops: seq<Op>, interval: nat): State
    decreases |ops|
  {
    if ops == [] then s else Step(Run(s, ops[..|ops| - 1], interval), ops[|ops| - 1], interval)
  }

  predicate LimitKept(ops: seq<Op>) {
    forall i :: 0 <= i < |ops| ==> !ops[i].OpLimit?
  }

  predicate LimitsPositive(ops: seq<Op>) {
    forall i :: 0 <= i < |ops| ==> ops[i].OpLimit? ==> ops[i].limit > 0
  }

  function Refills(ops: seq<Op>): nat {
    if ops == [] then 0 else Refills(ops[..|ops| - 1]) + if ops[|ops| - 1].OpRefill? then 1 else 0
  }

  lemma StepKeeps(s: State, op: Op, interval: nat)
    requires InBounds(s.lane)
    ensures var t := Step(s, op, interval);
            && InBounds(t.lane) && (op.OpLimit? || t.lane.limit == s.lane.limit)
            && (Fair(s.lane) && (s.lane.limit > 0.0 || !op.OpAsk?) ==> Fair(t.lane))
            && (s.lane.limit > 0.0 && !op.OpLimit? ==>
                  Worth(t.lane) <= Worth(s.lane) + if op.OpRefill? then Rate(s.lane, interval) else 0.0)
  {
    RateSign(s.lane, interval);
    hide Worth, Fair, Rate, Take, Refill;
    match op
    case OpAsk(bytes) => TakeKeeps(s.lane, bytes);
    case OpWake(i) => if Wakes(s, op) { TakeKeeps(s.lane, s.held[i]); }
    case OpRefill => RefillKeeps(s.lane, interval);
    case OpLimit(limit) => LimitKeeps(s.lane, limit);
    case _ =>
  }

  /** Whatever limits are set, every run stays in bounds; under positive limits it also stays in order. */
  lemma {:induction false} EveryRunOk(s: State, ops: seq<Op>, interval: nat)
    requires InBounds(s.lane)
    ensures InBounds(Run(s, ops, interval).lane)
    ensures LimitKept(ops) ==> Run(s, ops, interval).lane.limit == s.lane.limit
    ensures s.lane.limit > 0.0 && LimitsPositive(ops) ==> Run(s, ops, interval).lane.limit > 0.0
    ensures Fair(s.lane) && s.lane.limit > 0.0 && LimitsPositive(ops) ==> Fair(Run(s, ops, interval).lane)
  {
    if ops != [] {
      hide InBounds, Fair, Step;
      EveryRunOk(s, ops[..|ops| - 1], interval);
      var before := Run(s, ops[..|ops| - 1], interval);
      StepKeeps(before, ops[|ops| - 1], interval);
      NewLimit(before, ops[|ops| - 1], interval);
    }
  }

  lemma NewLimit(s: State, op: Op, interval: nat)
    ensures op.OpLimit? ==> Step(s, op, interval).lane.limit == op.limit as real
  {
  }

  // ---------------------------------------------------------------- the rate

  /** The tokens that the refills of a run can bring. */
  function Earned(ops: seq<Op>, rate: real): real {
    if ops == [] then 0.0 else Earned(ops[..|ops| - 1], rate) + if ops[|ops| - 1].OpRefill? then rate else 0.0
  }

  lemma {:induction false} EarnedIs(ops: seq<Op>, rate: real)
    ensures Earned(ops, rate) == Refills(ops) as real * rate
  {
    if ops != [] {
      EarnedIs(ops[..|ops| - 1], rate);
      Distribute(Refills(ops[..|ops| - 1]) as real, rate);
    }
  }

  lemma Distribute(n: real, x: real)
    ensures (n + 1.0) * x == n * x + x
  {
  }

  lemma SameRate(a: Lane, b: Lane, interval: nat)
    requires a.limit == b.limit
    ensures Rate(a, interval) == Rate(b, interval)
  {
  }

  lemma {:induction false} SpentAndLeft(s: State, ops: seq<Op>, interval: nat)
    requires InBounds(s.lane) && s.lane.limit > 0.0 && LimitKept(ops)
    ensures Worth(Run(s, ops, interval).lane) <= Worth(s.lane) + Earned(ops, Rate(s.lane, interval))
  {
    if ops != [] {
      hide InBounds, Step, Rate, Worth;
      var front, op := ops[..|ops| - 1], ops[|ops| - 1];
      EveryRunOk(s, front, interval);
      SpentAndLeft(s, front, interval);
      var before := Run(s, front, interval);
      StepKeeps(before, op, interval);
      SameRate(before.lane, s.lane, interval);
    }
  }

  lemma Bounds(l: Lane)
    requires InBounds(l)
    ensures Worth(l) - l.limit <= Total(l.granted) as real <= Worth(l)
  {
  }

  /** Over any stretch of a run with n refills and one limit L at most L + n * L * interval / 1000 bytes are granted. */
  lemma RateBound(s: State, ops: seq<Op>, interval: nat)
    requires InBounds(s.lane) && s.lane.limit > 0.0 && LimitKept(ops)
    ensures Total(Run(s, ops, interval).lane.granted) - Total(s.lane.granted)
         <= (s.lane.limit + Refills(ops) as real * (s.lane.limit * (interval as real / 1000.0))).Floor
  {
    RateIs(s.lane, interval);
    hide InBounds, Worth, Rate, Total, Earned, Refills, Run;
    var rate := Rate(s.lane, interval);
    EveryRunOk(s, ops, interval);
    SpentAndLeft(s, ops, interval);
    EarnedIs(ops, rate);
    Bounds(s.lane);
    Bounds(Run(s, ops, interval).lane);
    assert Total(Run(s, ops, interval).lane.granted) - Total(s.lane.granted)
        <= (s.lane.limit + Refills(ops) as real * rate).Floor;
  }

  lemma RateIs(l: Lane, interval: nat)
    ensures Rate(l, interval) == l.limit * (interval as real / 1000.0)
  {
  }

  // ---------------------------------------------------------------- what is paid is granted

  /** The tokens that a step brings: a refill fills the bucket up to the limit and not beyond. */
  ghost function Brings(s: State, op: Op, interval: nat): real {
    var rate, room := s.lane.limit * (interval as real / 1000.0), s.lane.limit - s.lane.tokens;
    if !op.OpRefill? || s.paused then 0.0 else if rate < room then rate else room
  }

  ghost function Brought(s: State, ops: seq<Op>, interval: nat): real {
    if ops == [] then 0.0
    else
      var front := ops[..|ops| - 1];
      Brought(s, front, interval) + Brings(Run(s, front, interval), ops[|ops| - 1], interval)
  }

  /** The grants from the `k`th on that are not for the whole of what was asked. */
  ghost function Partial(gs: seq<Grant>, k: nat): set<nat> {
    set i: nat | k <= i < |gs| && gs[i].allowed != gs[i].request.bytes
  }

  lemma PartialMore(l: Lane, added: real, t: Lane, k: nat)
    requires Paid(l, added, t) && k <= |l.granted|
    ensures GrantedWhole(t.granted, |l.granted|) ==> |Partial(t.granted, k)| == |Partial(l.granted, k)|
    ensures !GrantedWhole(t.granted, |l.granted|) ==> |Partial(t.granted, k)| == |Partial(l.granted, k)| + 1
  {
    hide Worth;
    if GrantedWhole(t.granted, |l.granted|) {
      assert Partial(t.granted, k) == Partial(l.granted, k);
    } else {
      assert Partial(t.granted, k) == Partial(l.granted, k) + {|t.granted| - 1};
    }
  }

  lemma RefillPaid(s: State, interval: nat)
    requires InBounds(s.lane) && s.lane.limit > 0.0 && !s.paused
    ensures Paid(s.lane, Brings(s, OpRefill, interval), Refill(s.lane, interval))
  {
    FilledBrings(s, interval);
    FilledOk(s.lane, interval);
    hide Drain, Filled, Worth, Brings, Rate, Paid, GrantedWhole;
    var f := Filled(s.lane, interval);
    var m := DrainServes(f);
    PaidOn(s.lane, Brings(s, OpRefill, interval), f, Drain(f));
  }

  lemma FilledBrings(s: State, interval: nat)
    requires !s.paused
    ensures var f := Filled(s.lane, interval);
            && s.lane.granted <= f.granted && GrantedWhole(f.granted, |s.lane.granted|)
            && Worth(f) == Worth(s.lane) + Brings(s, OpRefill, interval)
  {
    RateIs(s.lane, interval);
    hide Rate;
  }

  /** Every step of a limited direction turns tokens into bytes. */
  lemma StepPaid(s: State, op: Op, interval: nat)
    requires InBounds(s.lane) && s.lane.limit > 0.0 && !op.OpLimit?
    ensures Paid(s.lane, Brings(s, op, interval), Step(s, op, interval).lane)
  {
    hide Take, Refill;
    match op
    case OpAsk(bytes) => TakePaid(s.lane, bytes);
    case OpWake(i) => if Wakes(s, op) { TakePaid(s.lane, s.held[i]); }
    case OpRefill => if !s.paused { RefillPaid(s, interval); }
    case _ =>
  }

  /**
   From `l` to `t`, `brought` tokens later: the tokens there were and those brought, less the tokens left, are the bytes
   granted. Only a grant for less than what was asked loses some, and less than one each.
   */
  ghost predicate Turned(l: Lane, brought: real, t: Lane) {
    var bytes, n := (Total(t.granted) - Total(l.granted)) as real, |Partial(t.granted, |l.granted|)| as real;
    var spent := l.tokens + brought - t.tokens;
    l.granted <= t.granted && spent - n <= bytes <= spent && (n > 0.0 ==> spent - n < bytes)
  }

  lemma TurnedMore(l: Lane, brought: real, t: Lane, more: real, u: Lane)
    requires Turned(l, brought, t) && Paid(t, more, u)
    ensures Turned(l, brought + more, u)
  {
    PartialMore(t, more, u, |l.granted|);
    hide Total, Partial;
  }

  /** The companion of the rate bound: over any stretch of a run with one limit, tokens are turned into bytes. */
  lemma {:induction false} TokensBecomeBytes(s: State, ops: seq<Op>, interval: nat)
    requires InBounds(s.lane) && s.lane.limit > 0.0 && LimitKept(ops)
    ensures Turned(s.lane, Brought(s, ops, interval), Run(s, ops, interval).lane)
  {
    if ops == [] {
      assert Partial(s.lane.granted, |s.lane.granted|) == {};
    } else {
      hide InBounds, Step, Turned, Paid, Brings;
      var front, op := ops[..|ops| - 1], ops[|ops| - 1];
      EveryRunOk(s, front, interval);
      TokensBecomeBytes(s, front, interval);
      var before := Run(s, front, interval);
      StepPaid(before, op, interval);
      TurnedMore(s.lane, Brought(s, front, interval), before.lane, Brings(before, op, interval),
                 Run(s, ops, interval).lane);
    }
  }

  /**
   A request is granted whole at once, and pays for it, exactly when its direction is unlimited, or no pause is on and
   there are enough tokens; otherwise it is held back, or gets the whole tokens left, or waits behind the others.
   */
  lemma GrantedWholeIff(s: State, bytes: nat, interval: nat)
    requires InBounds(s.lane)
    ensures var l, t := s.lane, Step(s, OpAsk(bytes), interval);
            var r := Request(l.nextId, bytes);
            && t.lane.limit == l.limit && t.paused == s.paused
            && t.lane.nextId == l.nextId + (if t.held == s.held then 1 else 0)
            && (t.lane.granted == l.granted + [Grant(r, bytes)]
                <==> l.limit == 0.0 || (!s.paused && bytes as real <= l.tokens))
            && (t.held == s.held + [bytes] <==> l.limit > 0.0 && s.paused)
            && (t.lane.queue == l.queue + [r]
                <==> l.limit > 0.0 && !s.paused && l.tokens == 0.0 && bytes > 0)
            && (t.held == s.held || t.held == s.held + [bytes])
            && (t.lane.queue == l.queue || t.lane.queue == l.queue + [r])
            && (t.held != s.held ==> t.lane == l) && (t.lane.queue != l.queue ==> t.lane.granted == l.granted)
  {
    var l, t := s.lane, Step(s, OpAsk(bytes), interval);
    assert |l.granted + [Grant(Request(l.nextId, bytes), bytes)]| == |l.granted| + 1;
    assert |s.held + [bytes]| == |s.held| + 1;
    assert |l.queue + [Request(l.nextId, bytes)]| == |l.queue| + 1;
    if l.limit > 0.0 && !s.paused && 0.0 < l.tokens < bytes as real {
      assert t.lane.granted[|l.granted|].allowed < bytes;
      assert (l.granted + [Grant(Request(l.nextId, bytes), bytes)])[|l.granted|].allowed == bytes;
    }
  }

  /** A new limit takes tokens away only as far as it must: then a request is granted whole exactly if it fits both. */
  lemma LimitThenAsk(s: State, limit: nat, bytes: nat, interval: nat)
    requires InBounds(s.lane) && limit > 0 && !s.paused
    ensures var t := Step(Step(s, OpLimit(limit), interval), OpAsk(bytes), interval);
            t.lane.granted == s.lane.granted + [Grant(Request(s.lane.nextId, bytes), bytes)]
            <==> bytes <= limit && bytes as real <= s.lane.tokens
  {
    LimitKeeps(s.lane, limit);
    GrantedWholeIff(Step(s, OpLimit(limit), interval), bytes, interval);
  }

  /** A request that wakes up in a limited direction is treated as if it were made now, and is held back no more. */
  lemma WokenAsks(s: State, i: nat, interval: nat)
    requires InBounds(s.lane) && i < |s.held| && !s.paused && s.lane.limit > 0.0
    ensures var t := Step(s, OpWake(i), interval);
            && t.lane == Step(s, OpAsk(s.held[i]), interval).lane
            && multiset(t.held) == multiset(s.held) - multiset{s.held[i]}
  {
    hide Take;
    var a, x, b := s.held[..i], [s.held[i]], s.held[i + 1..];
    assert s.held == a + (x + b);
    assert multiset(s.held) == multiset(a) + (multiset(x) + multiset(b));
    assert multiset(a + b) == multiset(a) + multiset(b);
  }

  /** A pause stops everything: until it is over the lane stays as it is, and the requests made are held back. */
  lemma {:induction false} PausedStill(s: State, ops: seq<Op>, interval: nat)
    requires s.paused && s.lane.limit > 0.0 && LimitKept(ops) && forall i :: 0 <= i < |ops| ==> !ops[i].OpResume?
    ensures var t := Run(s, ops, interval);
            t.paused && t.lane == s.lane && s.held <= t.held && |t.held| == |s.held| + Asked(ops)
  {
    if ops != [] {
      PausedStill(s, ops[..|ops| - 1], interval);
    }
  }

  // ---------------------------------------------------------------- order and progress

  /** Whatever happens, positive requests are served in the order in which they came, and before all that still wait. */
  lemma ServedInOrder(s: State, ops: seq<Op>, interval: nat, i: nat, j: nat)
    requires LaneOk(s.lane) && s.lane.limit > 0.0 && LimitsPositive(ops)
    ensures var l := Run(s, ops, interval).lane;
            && (i < j < |l.granted| && l.granted[i].request.bytes > 0 && l.granted[j].request.bytes > 0 ==>
                  l.granted[i].request.id < l.granted[j].request.id)
            && (i < |l.granted| && j < |l.queue| && l.granted[i].request.bytes > 0 ==>
                  l.granted[i].request.id < l.queue[j].id)
  {
    hide Run;
    EveryRunOk(s, ops, interval);
  }

  /** The requests of the grants made since the `k`th. */
  function Served(gs: seq<Grant>, k: nat): (r: seq<Request>)
    requires k <= |gs|
    ensures |r| == |gs| - k && forall i :: 0 <= i < |r| ==> r[i] == gs[k + i].request
  {
    seq(|gs| - k, i requires 0 <= i < |gs| - k => gs[k + i].request)
  }

  /**
   A draining lane serves waiting requests from the front, at least one if it has any tokens, and on until none wait or
   no tokens are left; all are granted whole but perhaps the last, and the tokens pay for it.
   */
  lemma {:induction false} DrainServes(l: Lane) returns (m: nat)
    requires 0.0 <= l.tokens
    ensures m <= |l.queue| && Drain(l).queue == l.queue[m..] && (m < |l.queue| ==> Drain(l).tokens == 0.0)
    ensures l.queue != [] && l.tokens > 0.0 ==> m > 0
    ensures Paid(l, 0.0, Drain(l)) && Served(Drain(l).granted, |l.granted|) == l.queue[..m]
    decreases |l.queue|
  {
    hide Paid, Worth, GrantedWhole;
    m := 0;
    if |l.queue| > 0 && l.tokens > 0.0 {
      var r := l.queue[0];
      var rest := l.(queue := l.queue[1..]);
      if l.tokens >= r.bytes as real {
        var next := Give(rest, r, r.bytes, l.tokens - r.bytes as real);
        m := DrainServes(next);
        PaidWhole(l, next, r);
        PaidFirst(l, next, Drain(next));
        ServedOn(l.granted, Grant(r, r.bytes), Drain(next).granted);
        assert l.queue[..m + 1] == [r] + next.queue[..m];
      } else {
        PaidPart(l, Drain(l), r);
        assert Served(Drain(l).granted, |l.granted|) == [r] == l.queue[..1];
      }
      m := m + 1;
    } else {
      PaidNothing(l);
    }
  }

  lemma PaidNothing(l: Lane)
    ensures Paid(l, 0.0, l) && Served(l.granted, |l.granted|) == []
  {
  }

  lemma PaidFirst(a: Lane, b: Lane, c: Lane)
    requires Paid(a, 0.0, b) && GrantedWhole(b.granted, |a.granted|) && Paid(b, 0.0, c)
    ensures Paid(a, 0.0, c) && b.granted <= c.granted
  {
    hide Worth;
    PaidOn(a, 0.0, b, c);
  }

  lemma ServedOn(a: seq<Grant>, g: Grant, c: seq<Grant>)
    requires a + [g] <= c
    ensures Served(c, |a|) == [g.request] + Served(c, |a| + 1)
  {
    assert c[|a|] == (a + [g])[|a|];
  }

  predicate NoPause(ops: seq<Op>) {
    forall i :: 0 <= i < |ops| ==> !ops[i].OpPause?
  }

  /** `q` is the waiting list, its first `m` gone and `later` arrivals behind it. */
  ghost predicate Waiting(l: Lane, q: seq<Request>, m: nat, later: seq<Request>) {
    m <= |q| && l.queue == q[m..] + later
  }

  lemma WaitingRefill(l: Lane, q: seq<Request>, m: nat, later: seq<Request>, interval: nat) returns (n: nat,
                      rest: seq<Request>)
    requires InBounds(l) && l.limit > 0.0 && 0 < interval && Waiting(l, q, m, later)
    ensures Waiting(Refill(l, interval), q, n, rest) && (n > m || n == |q|)
  {
    var k := RefillServes(l, interval);
    if k <= |q| - m {
      n, rest := m + k, later;
      assert (q[m..] + later)[k..] == q[n..] + rest;
    } else {
      n, rest := |q|, later[k - (|q| - m)..];
      assert (q[m..] + later)[k..] == q[n..] + rest;
    }
  }

  lemma WaitingTake(l: Lane, q: seq<Request>, m: nat, later: seq<Request>, bytes: nat) returns (rest: seq<Request>)
    requires Waiting(l, q, m, later)
    ensures Waiting(Take(l, bytes), q, m, rest)
  {
    rest := later;
    if Take(l, bytes).queue != l.queue {
      rest := later + [Request(l.nextId, bytes)];
      assert (q[m..] + later) + [Request(l.nextId, bytes)] == q[m..] + rest;
    }
  }

  lemma WaitingLimit(l: Lane, q: seq<Request>, m: nat, later: seq<Request>, limit: nat)
    requires Waiting(l, q, m, later)
    ensures Waiting(SetLimit(l, limit as real), q, m, later)
  {
  }

  /** After n refills at least the first n of the requests now waiting have been served, in their order. */
  lemma {:induction false} WaitersServed(s: State, ops: seq<Op>, interval: nat) returns (m: nat, later: seq<Request>)
    requires InBounds(s.lane) && s.lane.limit > 0.0 && 0 < interval && !s.paused && NoPause(ops) && LimitsPositive(ops)
    ensures Waiting(Run(s, ops, interval).lane, s.lane.queue, m, later)
    ensures m >= Refills(ops) || m == |s.lane.queue|
    ensures !Run(s, ops, interval).paused
  {
    if ops == [] {
      m, later := 0, [];
    } else {
      hide InBounds, Refill, Take, Waiting, SetLimit;
      var front, op := ops[..|ops| - 1], ops[|ops| - 1];
      m, later := WaitersServed(s, front, interval);
      EveryRunOk(s, front, interval);
      var before := Run(s, front, interval);
      if op.OpRefill? {
        m, later := WaitingRefill(before.lane, s.lane.queue, m, later, interval);
      } else if op.OpAsk? {
        later := WaitingTake(before.lane, s.lane.queue, m, later, op.bytes);
      } else if Wakes(before, op) {
        later := WaitingTake(before.lane, s.lane.queue, m, later, before.held[op.index]);
      } else if op.OpLimit? {
        WaitingLimit(before.lane, s.lane.queue, m, later, op.limit);
      }
    }
  }

  lemma RefillServes(l: Lane, interval: nat) returns (m: nat)
    requires InBounds(l) && l.limit > 0.0 && 0 < interval
    ensures m <= |l.queue| && Refill(l, interval).queue == l.queue[m..] && (l.queue != [] ==> m > 0)
  {
    RateSign(l, interval);
    m := DrainServes(Filled(l, interval));
  }

  // ---------------------------------------------------------------- unlimited directions

  /** A refill leaves the waiting requests as they are exactly when the lane is unlimited. */
  lemma StarvedIffUnlimited(l: Lane, interval: nat)
    requires InBounds(l) && l.queue != [] && 0 < interval
    ensures Refill(l, interval).queue == l.queue <==> l.limit == 0.0
  {
    if l.limit > 0.0 {
      var m := RefillServes(l, interval);
      assert |l.queue[m..]| < |l.queue|;
    }
  }

  /** How many of the held requests ask for anything at all. */
  function Sized(held: seq<nat>): (n: nat)
    ensures n <= |held|
  {
    if held == [] then 0 else Sized(held[..|held| - 1]) + if held[|held| - 1] > 0 then 1 else 0
  }

  lemma {:induction false} SizedRemoved(held: seq<nat>, i: nat)
    requires i < |held|
    ensures Sized(RemoveAt(held, i)) == Sized(held) - if held[i] > 0 then 1 else 0
  {
    var n := |held| - 1;
    if i == n {
      assert RemoveAt(held, i) == held[..n];
    } else {
      SizedRemoved(held[..n], i);
      assert RemoveAt(held, i)[..n - 1] == RemoveAt(held[..n], i);
    }
  }

  function Asked(ops: seq<Op>): nat {
    if ops == [] then 0 else Asked(ops[..|ops| - 1]) + if ops[|ops| - 1].OpAsk? then 1 else 0
  }

  /**
   Once a lane is unlimited, and until a new limit is set: those who wait keep waiting in their places; of the
   requests held back by a pause each that asks for anything stays held or joins the queue; and granted, in whole, are
   exactly the requests made since and the empty ones of those held back.
   */
  lemma {:induction false} StarvedForEver(s: State, ops: seq<Op>, interval: nat)
    requires InBounds(s.lane) && s.lane.limit == 0.0 && LimitKept(ops)
    ensures var t := Run(s, ops, interval);
            && InBounds(t.lane) && t.lane.limit == 0.0
            && s.lane.queue <= t.lane.queue && s.lane.granted <= t.lane.granted
            && GrantedWhole(t.lane.granted, |s.lane.granted|)
            && |t.lane.queue| + Sized(t.held) == |s.lane.queue| + Sized(s.held)
            && |t.lane.granted| + (|t.held| - Sized(t.held))
               == |s.lane.granted| + (|s.held| - Sized(s.held)) + Asked(ops)
  {
    if ops != [] {
      hide Sized;
      var front, op := ops[..|ops| - 1], ops[|ops| - 1];
      StarvedForEver(s, front, interval);
      var before := Run(s, front, interval);
      if Wakes(before, op) { SizedRemoved(before.held, op.index); }
    }
  }

  /**
   It happens: a request that waits in a new limited lane is starved by lifting the limit, however the run goes on.
   */
  lemma StarvedByLiftingLimit(limit: nat, bytes: nat, later: seq<Op>, interval: nat)
    requires limit > 0 && bytes > 0 && LimitKept(later)
    ensures var start := State(Lane(limit as real, 0.0, [], [], 0), false, []);
            var lifted := Run(start, [OpAsk(bytes), OpLimit(0)], interval);
            Run(lifted, later, interval).lane.queue == [Request(0, bytes)]
  {
    var start := State(Lane(limit as real, 0.0, [], [], 0), false, []);
    var ops := [OpAsk(bytes), OpLimit(0)];
    assert ops[..1] == [OpAsk(bytes)] && [OpAsk(bytes)][..0] == [];
    assert Run(start, [], interval) == start;
    assert [] + [Request(0, bytes)] == [Request(0, bytes)];
    assert Run(start, ops[..1], interval).lane.queue == [Request(0, bytes)];
    StarvedForEver(Run(start, ops, interval), later, interval);
  }

  /**
   And so is a request that was held back by a pause when the limit was lifted: resumed, it joins the queue for ever.
   */
  lemma StarvedByResuming(limit: nat, bytes: nat, later: seq<Op>, interval: nat)
    requires limit > 0 && bytes > 0 && LimitKept(later)
    ensures var start := State(Lane(limit as real, 0.0, [], [], 0), false, []);
            var ops := [] + [OpPause] + [OpAsk(bytes)] + [OpLimit(0)] + [OpResume] + [OpWake(0)];
            var resumed := Run(start, ops, interval);
            Run(resumed, later, interval).lane.queue == [Request(0, bytes)]
  {
    var start := State(Lane(limit as real, 0.0, [], [], 0), false, []);
    assert Run(start, [], interval) == start;
    RunSnoc(start, [], OpPause, interval);
    RunSnoc(start, [] + [OpPause], OpAsk(bytes), interval);
    RunSnoc(start, [] + [OpPause] + [OpAsk(bytes)], OpLimit(0), interval);
    RunSnoc(start, [] + [OpPause] + [OpAsk(bytes)] + [OpLimit(0)], OpResume, interval);
    RunSnoc(start, [] + [OpPause] + [OpAsk(bytes)] + [OpLimit(0)] + [OpResume], OpWake(0), interval);
    hide Run;
    assert [] + [bytes] == [bytes] && RemoveAt([bytes], 0) == [] && [] + [Request(0, bytes)] == [Request(0, bytes)];
    var ops := [] + [OpPause] + [OpAsk(bytes)] + [OpLimit(0)] + [OpResume] + [OpWake(0)];
    StarvedForEver(Run(start, ops, interval), later, interval);
  }

  lemma RunSnoc(s: State, ops: seq<Op>, op: Op, interval: nat)
    ensures Run(s, ops + [op], interval) == Step(Run(s, ops, interval), op, interval)
  {
    assert (ops + [op])[..|ops|] == ops;
  }

  // ---------------------------------------------------------------- the object

  class Throttler {
    const interval: nat
    var download: Lane
    var upload: Lane
    /** The sizes of the requests that wait for the end of a pause. */
    var heldDownloads: seq<nat>
    var heldUploads: seq<nat>
    var isPaused: bool

    ghost predicate Valid()
      reads this
    {
      InBounds(download) && InBounds(upload)
    }

    ghost function Downloads(): State
      reads this
    {
      State(download, isPaused, heldDownloads)
    }

    ghost function Uploads(): State
      reads this
    {
      State(upload, isPaused, heldUploads)
    }

    constructor (downloadLimit: nat, uploadLimit: nat, interval: nat)
      ensures Valid() && this.interval == (if interval == 0 then 100 else interval)
      ensures Downloads() == State(Lane(downloadLimit as real, 0.0, [], [], 0), false, [])
      ensures Uploads() == State(Lane(uploadLimit as real, 0.0, [], [], 0), false, [])
    {
      this.interval := if interval == 0 then 100 else interval;
      download, upload := Lane(downloadLimit as real, 0.0, [], [], 0), Lane(uploadLimit as real, 0.0, [], [], 0);
      heldDownloads, heldUploads, isPaused := [], [], false;
    }

    method RequestDownload(bytes: nat)
      requires Valid()
      modifies this`download, this`heldDownloads
      ensures Valid() && Downloads() == Step(old(Downloads()), OpAsk(bytes), interval)
      ensures old(Fair(download)) && download.limit > 0.0 ==> Fair(download)
      ensures old(download.limit == 0.0 || (!isPaused && bytes as real <= download.tokens))
         ==> download.granted == old(download.granted) + [Grant(Request(old(download.nextId), bytes), bytes)]
    {
      if download.limit == 0.0 {
        var r := Request(download.nextId, bytes);
        download := Give(download.(nextId := download.nextId + 1), r, bytes, download.tokens);
        return;
      }
      if isPaused {
        heldDownloads := heldDownloads + [bytes];
        return;
      }
      TakeDownload(bytes);
    }

    /** The part of requestDownload behind the wait for the end of a pause. */
    method TakeDownload(bytes: nat)
      requires Valid()
      modifies this`download
      ensures Valid() && download == Take(old(download), bytes) && (old(Fair(download)) ==> Fair(download))
    {
      TakeKeeps(download, bytes);
      var r := Request(download.nextId, bytes);
      var lane := download.(nextId := download.nextId + 1);
      if lane.tokens >= bytes as real {
        download := Give(lane, r, bytes, lane.tokens - bytes as real);
      } else if lane.tokens > 0.0 {
        var allowed := lane.tokens.Floor;
        download := Give(lane, r, allowed, 0.0);
      } else {
        download := lane.(queue := lane.queue + [r]);
      }
    }

    /** One of the requests held back looks whether the pause is over, and if so goes on. */
    method WakeDownload(index: nat)
      requires Valid() && index < |heldDownloads|
      modifies this`download, this`heldDownloads
      ensures Valid() && Downloads() == Step(old(Downloads()), OpWake(index), interval)
      ensures old(Fair(download)) ==> Fair(download)
    {
      if isPaused { return; }
      var bytes := heldDownloads[index];
      heldDownloads := heldDownloads[..index] + heldDownloads[index + 1..];
      TakeDownload(bytes);
    }

    method RequestUpload(bytes: nat)
      requires Valid()
      modifies this`upload, this`heldUploads
      ensures Valid() && Uploads() == Step(old(Uploads()), OpAsk(bytes), interval)
      ensures old(Fair(upload)) && upload.limit > 0.0 ==> Fair(upload)
      ensures old(upload.limit == 0.0 || (!isPaused && bytes as real <= upload.tokens))
         ==> upload.granted == old(upload.granted) + [Grant(Request(old(upload.nextId), bytes), bytes)]
    {
      if upload.limit == 0.0 {
        var r := Request(upload.nextId, bytes);
        upload := Give(upload.(nextId := upload.nextId + 1), r, bytes, upload.tokens);
        return;
      }
      if isPaused {
        heldUploads := heldUploads + [bytes];
        return;
      }
      TakeUpload(bytes);
    }

    /** The part of requestUpload behind the wait for the end of a pause. */
    method TakeUpload(bytes: nat)
      requires Valid()
      modifies this`upload
      ensures Valid() && upload == Take(old(upload), bytes) && (old(Fair(upload)) ==> Fair(upload))
    {
      TakeKeeps(upload, bytes);
      var r := Request(upload.nextId, bytes);
      var lane := upload.(nextId := upload.nextId + 1);
      if lane.tokens >= bytes as real {
        upload := Give(lane, r, bytes, lane.tokens - bytes as real);
      } else if lane.tokens > 0.0 {
        var allowed := lane.tokens.Floor;
        upload := Give(lane, r, allowed, 0.0);
      } else {
        upload := lane.(queue := lane.queue + [r]);
      }
    }

    method WakeUpload(index: nat)
      requires Valid() && index < |heldUploads|
      modifies this`upload, this`heldUploads
      ensures Valid() && Uploads() == Step(old(Uploads()), OpWake(index), interval)
      ensures old(Fair(upload)) ==> Fair(upload)
    {
      if isPaused { return; }
      var bytes := heldUploads[index];
      heldUploads := heldUploads[..index] + heldUploads[index + 1..];
      TakeUpload(bytes);
    }

    /** _processQueue: serves the queue while there are tokens. */
    method ProcessQueue(l: Lane) returns (r: Lane)
      requires 0.0 <= l.tokens
      ensures r == Drain(l)
    {
      r := l;
      while |r.queue| > 0 && r.tokens > 0.0
        invariant 0.0 <= r.tokens && Drain(r) == Drain(l)
        decreases |r.queue|
      {
        var request := r.queue[0];
        if r.tokens >= request.bytes as real {
          r := Give(r.(queue := r.queue[1..]), request, request.bytes, r.tokens - request.bytes as real);
        } else {
          var allowed := r.tokens.Floor;
          r := Give(r.(queue := r.queue[1..]), request, allowed, 0.0);
          break;
        }
      }
    }

    /** What the timer does for one direction: tokens for the interval, capped at the limit, then the queue. */
    method RefillLane(l: Lane) returns (r: Lane)
      requires InBounds(l)
      ensures r == Refill(l, interval) && InBounds(r) && (Fair(l) ==> Fair(r))
    {
      hide Rate, Drain, Fair;
      RefillKeeps(l, interval);
      r := l;
      if l.limit > 0.0 {
        FilledOk(l, interval);
        var added := Rate(l, interval);
        r := ProcessQueue(l.(tokens := MinReal(l.tokens + added, l.limit)));
      }
    }

    /** The refill timer. */
    method OnRefillTimer()
      requires Valid()
      modifies this`download, this`upload
      ensures Valid()
      ensures Downloads() == Step(old(Downloads()), OpRefill, interval)
      ensures Uploads() == Step(old(Uploads()), OpRefill, interval)
      ensures (old(Fair(download)) ==> Fair(download)) && (old(Fair(upload)) ==> Fair(upload))
    {
      if isPaused { return; }
      hide Drain;
      download := RefillLane(download);
      upload := RefillLane(upload);
    }

    method Pause()
      modifies this`isPaused
      ensures isPaused
    {
      isPaused := true;
    }

    method Resume()
      modifies this`isPaused
      ensures !isPaused
    {
      isPaused := false;
    }

    /** A direction that is in order stays so under any new limit; what disturbs the order is being unlimited. */
    method SetDownloadLimit(limit: nat)
      requires Valid()
      modifies this`download
      ensures Valid() && download == SetLimit(old(download), limit as real) && (old(Fair(download)) ==> Fair(download))
    {
      LimitKeeps(download, limit);
      download := download.(limit := limit as real);
      if download.tokens > limit as real {
        download := download.(tokens := limit as real);
      }
    }

    method SetUploadLimit(limit: nat)
      requires Valid()
      modifies this`upload
      ensures Valid() && upload == SetLimit(old(upload), limit as real) && (old(Fair(upload)) ==> Fair(upload))
    {
      LimitKeeps(upload, limit);
      upload := upload.(limit := limit as real);
      if upload.tokens > limit as real {
        upload := upload.(tokens := limit as real);
      }
    }
  }
}
