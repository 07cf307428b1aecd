/**
 The iterative lookup: rounds of queries to the closest nodes not yet asked, whose answers are merged into the set of
 discovered nodes. What a node answers, the order in which answers arrive and a stop from outside are arbitrary.
 */
module Lookup {
  import opened Arith
  import opened Bytes
  import opened Kademlia
  import opened RoutingTable
  import opened Sorting

  datatype Endpoint = Endpoint(host: string, port: nat)

  datatype Response = NoAnswer | Answer(id: Option<Id>, nodes: seq<Contact>)

  /** An entry of the initial shortlist; bootstrap nodes come without an id. */
  datatype Seed = Seed(id: Option<Id>, host: string, port: nat)

  function Key(c: Contact): Endpoint {
    Endpoint(c.host, c.port)
  }

  function Keys(cs: seq<Contact>): (r: set<Endpoint>)
    ensures forall i :: 0 <= i < |cs| ==> Key(cs[i]) in r
  {
    if cs == [] then {} else {Key(cs[0])} + Keys(cs[1..])
  }

  lemma {:induction false} KeyOwner(cs: seq<Contact>, e: Endpoint) returns (i: nat)
    requires e in Keys(cs)
    ensures i < |cs| && Key(cs[i]) == e
  {
    if Key(cs[0]) == e {
      i := 0;
    } else {
      i := KeyOwner(cs[1..], e);
      i := i + 1;
    }
  }

  lemma {:induction false} KeysAppend(a: seq<Contact>, b: seq<Contact>)
    ensures Keys(a + b) == Keys(a) + Keys(b)
  {
    if a == [] {
      assert a + b == b;
    } else {
      assert (a + b)[1..] == a[1..] + b;
      KeysAppend(a[1..], b);
    }
  }

  ghost predicate DistinctKeys(cs: seq<Contact>) {
    DistinctBy(cs, Key)
  }

  // ---------------------------------------------------------------- the map of discovered nodes

  /** Map.set: an existing entry keeps its place and gets the new value. */
  function Put(all: seq<Contact>, c: Contact): seq<Contact> {
    if all == [] then [c] else if Key(all[0]) == Key(c) then [c] + all[1..] else [all[0]] + Put(all[1..], c)
  }

  function Merge(all: seq<Contact>, found: seq<Contact>): seq<Contact>
    decreases |found|
  {
    if found == [] then all
    else Merge(if Key(found[0]) in Keys(all) then all else all + [found[0]], found[1..])
  }

  function SeedAll(shortlist: seq<Seed>): seq<Contact> {
    if shortlist == [] then []
    else
      var s := shortlist[|shortlist| - 1];
      var before := SeedAll(shortlist[..|shortlist| - 1]);
      if s.id.None? then before else Put(before, Contact(s.id.value, s.host, s.port))
  }

  lemma KeysCons(c: Contact, cs: seq<Contact>)
    ensures Keys([c] + cs) == {Key(c)} + Keys(cs)
    ensures DistinctKeys([c] + cs) <==> Key(c) !in Keys(cs) && DistinctKeys(cs)
    ensures forall x :: x in [c] + cs <==> x == c || x in cs
  {
    var all := [c] + cs;
    assert all[1..] == cs;
    assert forall x :: x in all <==> x == c || x in cs;
    assert forall i :: 0 <= i < |cs| ==> all[i + 1] == cs[i];
    if Key(c) in Keys(cs) {
      var i := KeyOwner(cs, Key(c));
      assert all[i + 1] == cs[i];
    }
  }

  lemma KeysSnoc(cs: seq<Contact>, c: Contact)
    requires DistinctKeys(cs) && Key(c) !in Keys(cs)
    ensures Keys(cs + [c]) == Keys(cs) + {Key(c)} && DistinctKeys(cs + [c])
    ensures forall x :: x in cs + [c] <==> x == c || x in cs
  {
    KeysAppend(cs, [c]);
    assert Keys([c]) == {Key(c)};
  }

  lemma {:induction false} PutKeys(all: seq<Contact>, c: Contact)
    requires DistinctKeys(all)
    ensures DistinctKeys(Put(all, c)) && Keys(Put(all, c)) == Keys(all) + {Key(c)}
    ensures forall x :: x in Put(all, c) ==> x == c || x in all
  {
    hide DistinctKeys, Keys;
    if all == [] {
      KeysCons(c, []);
      NoKeys();
      assert [c] + [] == [c];
    } else {
      assert all == [all[0]] + all[1..];
      KeysCons(all[0], all[1..]);
      if Key(all[0]) == Key(c) {
        KeysCons(c, all[1..]);
      } else {
        PutKeys(all[1..], c);
        KeysCons(all[0], Put(all[1..], c));
      }
    }
  }

  lemma NoKeys()
    ensures Keys([]) == {} && DistinctKeys([])
  {
  }

  function KeyList(cs: seq<Contact>): (r: seq<Endpoint>)
    ensures |r| == |cs| && forall i :: 0 <= i < |cs| ==> r[i] == Key(cs[i])
  {
    seq(|cs|, i requires 0 <= i < |cs| => Key(cs[i]))
  }

  lemma KeyListKeys(cs: seq<Contact>)
    ensures forall e :: e in KeyList(cs) <==> e in Keys(cs)
  {
    forall e | e in Keys(cs) ensures e in KeyList(cs) {
      var i := KeyOwner(cs, e);
      assert KeyList(cs)[i] == e;
    }
  }

  /** Queries of new endpoints leave no endpoint asked twice. */
  lemma AppendQueries(qs: seq<Endpoint>, queried: set<Endpoint>, cs: seq<Contact>)
    requires NoneTwice(qs) && (forall e :: e in queried <==> e in qs) && DistinctKeys(cs)
    requires forall c :: c in cs ==> Key(c) !in queried
    ensures NoneTwice(qs + KeyList(cs)) && forall e :: e in queried + Keys(cs) <==> e in qs + KeyList(cs)
  {
    KeyListKeys(cs);
    forall i | 0 <= i < |cs| ensures KeyList(cs)[i] !in qs {
      assert cs[i] in cs;
    }
  }

  lemma {:induction false} SeedAllDistinct(shortlist: seq<Seed>)
    ensures DistinctKeys(SeedAll(shortlist))
  {
    if shortlist != [] {
      SeedAllDistinct(shortlist[..|shortlist| - 1]);
      var s := shortlist[|shortlist| - 1];
      if s.id.Some? {
        PutKeys(SeedAll(shortlist[..|shortlist| - 1]), Contact(s.id.value, s.host, s.port));
      }
    }
  }

  /** Bootstrap entries are dropped: a lookup knows no node at its start exactly when it starts from nothing else. */
  lemma {:induction false} BootstrapDropped(shortlist: seq<Seed>)
    ensures SeedAll(shortlist) == [] <==> forall i :: 0 <= i < |shortlist| ==> shortlist[i].id.None?
  {
    if shortlist != [] {
      BootstrapDropped(shortlist[..|shortlist| - 1]);
      var s := shortlist[|shortlist| - 1];
      if s.id.Some? {
        SeedAllDistinct(shortlist[..|shortlist| - 1]);
        PutKeys(SeedAll(shortlist[..|shortlist| - 1]), Contact(s.id.value, s.host, s.port));
        NoKeys();
      }
    }
  }

  /** The last entry of the shortlist with an id that names the endpoint of `c`. */
  ghost predicate SeededLast(shortlist: seq<Seed>, i: nat, c: Contact) {
    && i < |shortlist| && shortlist[i] == Seed(Some(c.id), c.host, c.port)
    && forall j :: i < j < |shortlist| && shortlist[j].id.Some? ==>
         Endpoint(shortlist[j].host, shortlist[j].port) != Key(c)
  }

  /** A lookup starts from the entries with an id; of several for one endpoint the last one counts. */
  lemma {:induction false} SeedAllIs(shortlist: seq<Seed>, c: Contact)
    ensures c in SeedAll(shortlist) <==> exists i: nat :: SeededLast(shortlist, i, c)
  {
    if shortlist != [] {
      var n := |shortlist| - 1;
      var front, s := shortlist[..n], shortlist[n];
      SeedAllIs(front, c);
      SeedAllDistinct(front);
      SeededSnoc(front, s, c);
      assert shortlist == front + [s];
      hide SeededLast, DistinctKeys, Put;
      if s.id.Some? { PutIs(SeedAll(front), Contact(s.id.value, s.host, s.port), c); }
    }
  }

  lemma SeededSnoc(front: seq<Seed>, s: Seed, c: Contact)
    ensures (exists i: nat :: SeededLast(front + [s], i, c))
       <==> s == Seed(Some(c.id), c.host, c.port)
            || (!(s.id.Some? && Endpoint(s.host, s.port) == Key(c)) && exists i: nat :: SeededLast(front, i, c))
  {
    var all := front + [s];
    if i: nat :| SeededLast(all, i, c) {
      if i < |front| {
        assert all[|front|] == s;
        assert forall j :: 0 <= j < |front| ==> front[j] == all[j];
        assert SeededLast(front, i, c);
      }
    }
    if s == Seed(Some(c.id), c.host, c.port) { assert SeededLast(all, |front|, c); }
    if i: nat :| SeededLast(front, i, c) {
      if !(s.id.Some? && Endpoint(s.host, s.port) == Key(c)) { assert SeededLast(all, i, c); }
    }
  }

  lemma {:induction false} PutIs(all: seq<Contact>, c: Contact, x: Contact)
    requires DistinctKeys(all)
    ensures x in Put(all, c) <==> x == c || (x in all && Key(x) != Key(c))
  {
    if all != [] {
      assert all == [all[0]] + all[1..];
      KeysCons(all[0], all[1..]);
      if Key(all[0]) == Key(c) {
        assert x in [c] + all[1..] <==> x == c || x in all[1..];
        if x in all[1..] { KeyIn(all[1..], x); }
      } else {
        PutIs(all[1..], c, x);
      }
    }
  }

  lemma {:induction false} KeyIn(cs: seq<Contact>, c: Contact)
    requires c in cs
    ensures Key(c) in Keys(cs)
  {
    if cs[0] != c { KeyIn(cs[1..], c); }
  }

  lemma {:induction false} MergeKeys(all: seq<Contact>, found: seq<Contact>)
    requires DistinctKeys(all)
    ensures DistinctKeys(Merge(all, found)) && Keys(Merge(all, found)) == Keys(all) + Keys(found)
    ensures forall x :: x in Merge(all, found) ==> x in all || x in found
    ensures all <= Merge(all, found)
    decreases |found|
  {
    if found != [] {
      hide DistinctKeys, Keys;
      var c := found[0];
      var next := if Key(c) in Keys(all) then all else all + [c];
      assert found == [c] + found[1..];
      KeysCons(c, found[1..]);
      if Key(c) !in Keys(all) {
        KeysSnoc(all, c);
      }
      MergeKeys(next, found[1..]);
    } else {
      NoKeys();
      assert Keys(all) + Keys(found) == Keys(all);
    }
  }

  // ---------------------------------------------------------------- what has been discovered

  /** Heard of: a seed, or named in the answer of a node that was asked. */
  ghost predicate HeardOf(e: Endpoint, seeds: seq<Contact>, respond: Endpoint -> Response, asked: set<Endpoint>) {
    e in Keys(seeds) || exists q :: q in asked && respond(q).Answer? && e in Keys(respond(q).nodes)
  }

  ghost predicate Reported(c: Contact, seeds: seq<Contact>, respond: Endpoint -> Response, asked: set<Endpoint>) {
    c in seeds || exists q :: q in asked && respond(q).Answer? && c in respond(q).nodes
  }

  /** `all` holds one entry for each endpoint heard of, as somebody reported it. */
  ghost predicate Discovered(all: seq<Contact>, seeds: seq<Contact>, respond: Endpoint -> Response,
                             asked: set<Endpoint>) {
    && DistinctKeys(all)
    && (forall e :: e in Keys(all) <==> HeardOf(e, seeds, respond, asked))
    && forall c :: c in all ==> Reported(c, seeds, respond, asked)
  }

  lemma DiscoveredMore(all: seq<Contact>, seeds: seq<Contact>, respond: Endpoint -> Response, asked: set<Endpoint>,
                       q: Endpoint)
    requires Discovered(all, seeds, respond, asked)
    ensures var r := respond(q);
            var all' := if r.Answer? then Merge(all, r.nodes) else all;
            Discovered(all', seeds, respond, asked + {q}) && Keys(all) <= Keys(all') && all <= all'
  {
    var r := respond(q);
    var found := if r.Answer? then r.nodes else [];
    MergeKeys(all, found);
    var all' := if r.Answer? then Merge(all, r.nodes) else all;
    assert all' == Merge(all, found);
    var asked' := asked + {q};
    forall e ensures e in Keys(all') <==> HeardOf(e, seeds, respond, asked') {
      if e in Keys(found) { assert q in asked' && r.Answer?; }
      if HeardOf(e, seeds, respond, asked) && e !in Keys(seeds) {
        var p :| p in asked && respond(p).Answer? && e in Keys(respond(p).nodes);
        assert p in asked';
      }
      if HeardOf(e, seeds, respond, asked') && e !in Keys(seeds) {
        var p :| p in asked' && respond(p).Answer? && e in Keys(respond(p).nodes);
        assert p == q || p in asked;
      }
    }
    forall c | c in all' ensures Reported(c, seeds, respond, asked') {
      if c in all {
        assert Reported(c, seeds, respond, asked);
        if c !in seeds {
          var p :| p in asked && respond(p).Answer? && c in respond(p).nodes;
          assert p in asked';
        }
      } else {
        assert q in asked' && c in r.nodes;
      }
    }
  }

  // ---------------------------------------------------------------- rounds

  function Unqueried(all: seq<Contact>, queried: set<Endpoint>): seq<Contact> {
    if all == [] then []
    else Unqueried(all[..|all| - 1], queried) + if Key(all[|all| - 1]) in queried then [] else [all[|all| - 1]]
  }

  lemma {:induction false} UnqueriedIs(all: seq<Contact>, queried: set<Endpoint>)
    requires DistinctKeys(all)
    ensures DistinctKeys(Unqueried(all, queried))
    ensures forall c :: c in Unqueried(all, queried) <==> c in all && Key(c) !in queried
  {
    if all != [] {
      var front, last := all[..|all| - 1], all[|all| - 1];
      UnqueriedIs(front, queried);
      assert all == front + [last];
      assert forall c :: c in front ==> Key(c) != Key(last);
    }
  }

  function ToQuery(all: seq<Contact>, queried: set<Endpoint>, target: Id, alpha: nat): seq<Contact> {
    Take(Sort(Unqueried(all, queried), Closer(target)), alpha)
  }

  /** Up to alpha nodes not asked yet, none twice, and no other unasked one closer than any of them. */
  lemma ToQueryIs(all: seq<Contact>, queried: set<Endpoint>, target: Id, alpha: nat)
    requires DistinctKeys(all)
    ensures var r := ToQuery(all, queried, target, alpha);
            && |r| <= alpha && DistinctKeys(r)
            && (forall c :: c in r ==> c in all && Key(c) !in queried)
            && (forall x, y :: x in all && Key(x) !in queried && x !in r && y in r ==>
                  DistanceTo(y, target) <= DistanceTo(x, target))
            && (forall x :: x in all && Key(x) !in queried && x !in r ==> |r| == alpha)
  {
    hide DistanceTo;
    var u := Unqueried(all, queried);
    UnqueriedIs(all, queried);
    SortElements(u, Closer(target));
    ClosestOf(u, target, alpha);
    SortDistinct(u, Closer(target), Key);
  }

  ghost predicate NoneTwice(qs: seq<Endpoint>) {
    forall i, j :: 0 <= i < j < |qs| ==> qs[i] != qs[j]
  }

  datatype Progress = Progress(closest: Option<Id>, noProgress: nat)

  /** The bookkeeping for one answer: a closer responder than any before counts as progress. */
  function Heard(p: Progress, target: Id, r: Response): Progress {
    match r
    case Answer(Some(id), _) =>
      var d := Distance(target, id);
      if p.closest.None? || Compare(d, p.closest.value) < 0 then Progress(Some(d), 0) else p
    case _ => p
  }

  /** How far from the target the node is that answered at `e`, by the id it gave. */
  ghost function AnswerDistance(e: Endpoint, respond: Endpoint -> Response, target: Id): Option<nat> {
    match respond(e)
    case Answer(Some(id), _) => Some(Number(Distance(target, id)))
    case _ => None
  }

  /** The answer at `e` comes from closer to the target than every answer at `earlier`. */
  ghost predicate Gains(e: Endpoint, earlier: set<Endpoint>, respond: Endpoint -> Response, target: Id) {
    var d := AnswerDistance(e, respond, target);
    && d.Some?
    && forall q <- earlier ::
         var x := AnswerDistance(q, respond, target);
         x.Some? ==> d.value < x.value
  }

  ghost predicate SomeGain(es: set<Endpoint>, earlier: set<Endpoint>, respond: Endpoint -> Response, target: Id) {
    exists e :: e in es && Gains(e, earlier, respond, target)
  }

  /** `closest` is the distance of the closest answer at `asked`. */
  ghost predicate ClosestIs(closest: Option<Id>, asked: set<Endpoint>, respond: Endpoint -> Response, target: Id) {
    match closest
    case None => forall q <- asked :: AnswerDistance(q, respond, target) == None
    case Some(d) =>
      && (exists q <- asked :: AnswerDistance(q, respond, target) == Some(Number(d)))
      && forall q <- asked ::
           var x := AnswerDistance(q, respond, target);
           x.Some? ==> Number(d) <= x.value
  }

  /** One more answer: it counts as progress exactly when it gains on all before it. */
  lemma HeardIs(p: Progress, asked: set<Endpoint>, e: Endpoint, respond: Endpoint -> Response, target: Id)
    requires ClosestIs(p.closest, asked, respond, target)
    ensures var h := Heard(p, target, respond(e));
            && ClosestIs(h.closest, asked + {e}, respond, target)
            && h.noProgress == if Gains(e, asked, respond, target) then 0 else p.noProgress
  {
    hide Number, Distance, Compare;
    var x := AnswerDistance(e, respond, target);
    if x.Some? {
      var d := Distance(target, respond(e).id.value);
      if p.closest.Some? { CompareIsOrder(d, p.closest.value); }
    }
  }

  /** Somebody gains on the answers of the earlier rounds exactly when somebody gains on all answers before its own. */
  lemma GainInRound(handled: set<Endpoint>, e: Endpoint, earlier: set<Endpoint>, respond: Endpoint -> Response,
                    target: Id)
    ensures SomeGain(handled + {e}, earlier, respond, target)
       <==> SomeGain(handled, earlier, respond, target) || Gains(e, earlier + handled, respond, target)
  {
    hide AnswerDistance;
    if Gains(e, earlier + handled, respond, target) { assert Gains(e, earlier, respond, target); }
    if Gains(e, earlier, respond, target) && !Gains(e, earlier + handled, respond, target) {
      var q :| q in earlier + handled && AnswerDistance(q, respond, target).Some?
            && AnswerDistance(q, respond, target).value <= AnswerDistance(e, respond, target).value;
      assert Gains(q, earlier, respond, target);
    }
  }

  // ---------------------------------------------------------------- the trace of a lookup

  /** The contact could be asked when those before had been: heard of, and not asked yet. */
  ghost predicate Open(c: Contact, before: seq<Contact>, seeds: seq<Contact>, respond: Endpoint -> Response) {
    HeardOf(Key(c), seeds, respond, Keys(before)) && Key(c) !in Keys(before)
  }

  /** A round asks the alpha closest of the nodes open to it, or all of them. */
  ghost predicate RoundOk(all: seq<Contact>, before: seq<Contact>, round: seq<Contact>, seeds: seq<Contact>,
                          respond: Endpoint -> Response, target: Id, alpha: nat)
  {
    && 0 < |round| <= alpha
    && (forall c <- round :: c in all && Open(c, before, seeds, respond))
    && (forall x <- all, y <- round :: Open(x, before, seeds, respond) && x !in round ==>
          |round| == alpha && DistanceTo(y, target) <= DistanceTo(x, target))
  }

  ghost predicate RoundsOk(all: seq<Contact>, rounds: seq<seq<Contact>>, seeds: seq<Contact>,
                           respond: Endpoint -> Response, target: Id, alpha: nat)
  {
    forall i :: 0 <= i < |rounds| ==> RoundOk(all, Flatten(rounds[..i]), rounds[i], seeds, respond, target, alpha)
  }

  /** At least k nodes asked, and no answer of the last round, which is not the first, from closer than all before. */
  ghost predicate Settled(rounds: seq<seq<Contact>>, k: nat, respond: Endpoint -> Response, target: Id) {
    && |Flatten(rounds)| >= k && |rounds| >= 2
    && !SomeGain(Keys(rounds[|rounds| - 1]), Keys(Flatten(rounds[..|rounds| - 1])), respond, target)
  }

  /** No further round is made: the limit, a stop, nobody left to ask, or nothing gained. */
  ghost predicate Ends(rounds: seq<seq<Contact>>, seeds: seq<Contact>, respond: Endpoint -> Response, target: Id,
                       stopped: nat -> bool, alpha: nat, k: nat, maxIterations: nat)
  {
    || |rounds| == maxIterations || stopped(|rounds|) || alpha == 0
    || (forall e :: HeardOf(e, seeds, respond, Keys(Flatten(rounds))) ==> e in Keys(Flatten(rounds)))
    || Settled(rounds, k, respond, target)
  }

  /** None of the rounds was made with a reason to end before it. */
  ghost predicate NoneLate(rounds: seq<seq<Contact>>, seeds: seq<Contact>, respond: Endpoint -> Response, target: Id,
                           stopped: nat -> bool, alpha: nat, k: nat, maxIterations: nat)
  {
    forall i :: 0 <= i < |rounds| ==> !Ends(rounds[..i], seeds, respond, target, stopped, alpha, k, maxIterations)
  }

  class LookupRun {
    const target: Id
    const alpha: nat
    var allNodes: seq<Contact>
    var queried: set<Endpoint>
    var progress: Progress
    ghost var queries: seq<Endpoint>
    /** The nodes asked, round by round. */
    ghost var rounds: seq<seq<Contact>>

    /** Between rounds: every query answered or failed, no endpoint asked twice. */
    ghost predicate Valid(seeds: seq<Contact>, respond: Endpoint -> Response)
      reads this
    {
      && NoneTwice(queries) && (forall e :: e in queried <==> e in queries)
      && Discovered(allNodes, seeds, respond, queried) && queried <= Keys(allNodes)
    }

    /** The bookkeeping of the run says what the rounds made so far say. */
    ghost predicate Traced(seeds: seq<Contact>, respond: Endpoint -> Response)
      reads this
    {
      && queried == Keys(Flatten(rounds)) && queries == KeyList(Flatten(rounds))
      && RoundsOk(allNodes, rounds, seeds, respond, target, alpha)
      && ClosestIs(progress.closest, queried, respond, target)
      && (if rounds == [] then progress.noProgress == 0
          else
            var n := |rounds| - 1;
            && progress.noProgress >= 1
            && (progress.noProgress >= 2 <==>
                n >= 1 && !SomeGain(Keys(rounds[n]), Keys(Flatten(rounds[..n])), respond, target)))
    }

    constructor (target: Id, alpha: nat, shortlist: seq<Seed>, ghost respond: Endpoint -> Response)
      ensures Valid(SeedAll(shortlist), respond) && Traced(SeedAll(shortlist), respond)
      ensures rounds == [] && queries == [] && queried == {} && allNodes == SeedAll(shortlist)
      ensures this.target == target && this.alpha == alpha
    {
      this.target, this.alpha := target, alpha;
      allNodes := SeedAll(shortlist);
      queried := {};
      progress := Progress(None, 0);
      queries, rounds := [], [];
      SeedAllDistinct(shortlist);
    }

    /** One round: all of `toQuery` are asked at once, the answers are handled in any order. */
    method Round(toQuery: seq<Contact>, ghost seeds: seq<Contact>, respond: Endpoint -> Response)
      requires Valid(seeds, respond) && Traced(seeds, respond)
      requires toQuery == ToQuery(allNodes, queried, target, alpha) && toQuery != []
      modifies this`allNodes, this`queried, this`progress, this`queries, this`rounds
      ensures Valid(seeds, respond) && Traced(seeds, respond)
      ensures rounds == old(rounds) + [toQuery] && |queries| == |old(queries)| + |toQuery|
    {
      hide Discovered, DistinctKeys, NoneTwice, Keys, ToQuery, KeyList, RoundOk, RoundsOk, ClosestIs, SomeGain, HeardOf;
      ghost var all, before := allNodes, Flatten(rounds);
      RoundFacts(allNodes, queried, queries, target, alpha, seeds, respond);
      NewRound(allNodes, queried, before, toQuery, target, alpha, seeds, respond);
      AskedMore(rounds, toQuery);
      ghost var answered, was := queried, progress.noProgress;
      queried := queried + Keys(toQuery);
      queries := queries + KeyList(toQuery);
      rounds := rounds + [toQuery];
      HandleAnswers(toQuery, answered, seeds, respond);
      GrownRounds(all, allNodes, old(rounds), toQuery, seeds, respond, target, alpha, answered, queried);
      progress := progress.(noProgress := progress.noProgress + 1);
      assert rounds[..|rounds| - 1] == old(rounds);
    }

    /** The answers to the pending queries, one after the other, whichever comes first. */
    method HandleAnswers(toQuery: seq<Contact>, ghost answered: set<Endpoint>, ghost seeds: seq<Contact>,
                         respond: Endpoint -> Response)
      requires Discovered(allNodes, seeds, respond, answered) && ClosestIs(progress.closest, answered, respond, target)
      modifies this`allNodes, this`progress
      ensures Discovered(allNodes, seeds, respond, answered + Keys(toQuery))
      ensures old(Keys(allNodes)) <= Keys(allNodes) && old(allNodes) <= allNodes
      ensures ClosestIs(progress.closest, answered + Keys(toQuery), respond, target)
      ensures progress.noProgress
           == if SomeGain(Keys(toQuery), answered, respond, target) then 0 else old(progress.noProgress)
    {
      hide Discovered, DistinctKeys, Merge, Heard, Keys, ClosestIs, Gains, SomeGain;
      var pending := toQuery;
      ghost var handled: set<Endpoint> := {};
      NoGain(answered, respond, target);
      assert answered + handled == answered;
      while pending != []
        invariant Discovered(allNodes, seeds, respond, answered + handled)
        invariant old(Keys(allNodes)) <= Keys(allNodes) && old(allNodes) <= allNodes
        invariant handled + Keys(pending) == Keys(toQuery)
        invariant ClosestIs(progress.closest, answered + handled, respond, target)
        invariant progress.noProgress
               == if SomeGain(handled, answered, respond, target) then 0 else old(progress.noProgress)
        decreases |pending|
      {
        var i :| 0 <= i < |pending|;
        var node := pending[i];
        var r := respond(Key(node));
        DiscoveredMore(allNodes, seeds, respond, answered + handled, Key(node));
        HeardIs(progress, answered + handled, Key(node), respond, target);
        GainInRound(handled, Key(node), answered, respond, target);
        progress := Heard(progress, target, r);
        if r.Answer? {
          allNodes := Merge(allNodes, r.nodes);
        }
        DropOne(pending, i);
        assert answered + (handled + {Key(node)}) == (answered + handled) + {Key(node)};
        handled := handled + {Key(node)};
        pending := pending[..i] + pending[i + 1..];
      }
      NoKeys();
      assert handled + Keys([]) == handled;
    }
  }

  lemma NoGain(earlier: set<Endpoint>, respond: Endpoint -> Response, target: Id)
    ensures !SomeGain({}, earlier, respond, target)
  {
  }

  lemma AskedMore(rounds: seq<seq<Contact>>, round: seq<Contact>)
    ensures Flatten(rounds + [round]) == Flatten(rounds) + round
    ensures Keys(Flatten(rounds + [round])) == Keys(Flatten(rounds)) + Keys(round)
    ensures KeyList(Flatten(rounds + [round])) == KeyList(Flatten(rounds)) + KeyList(round)
  {
    hide Keys;
    FlattenSnoc(rounds, round);
    KeysAppend(Flatten(rounds), round);
    assert KeyList(Flatten(rounds) + round) == KeyList(Flatten(rounds)) + KeyList(round);
  }

  /** The next round is as it should be. */
  lemma NewRound(all: seq<Contact>, queried: set<Endpoint>, before: seq<Contact>, round: seq<Contact>, target: Id,
                 alpha: nat, seeds: seq<Contact>, respond: Endpoint -> Response)
    requires Discovered(all, seeds, respond, queried) && queried == Keys(before)
    requires round == ToQuery(all, queried, target, alpha) && round != []
    ensures RoundOk(all, before, round, seeds, respond, target, alpha)
  {
    hide DistanceTo, ToQuery;
    ToQueryIs(all, queried, target, alpha);
    forall c <- all ensures HeardOf(Key(c), seeds, respond, Keys(before)) { KeyIn(all, c); }
  }

  /** What is heard of later changes nothing about the rounds made before. */
  lemma GrownRounds(all: seq<Contact>, more: seq<Contact>, rounds: seq<seq<Contact>>, round: seq<Contact>,
                    seeds: seq<Contact>, respond: Endpoint -> Response, target: Id, alpha: nat,
                    asked: set<Endpoint>, asked': set<Endpoint>)
    requires all <= more && Discovered(all, seeds, respond, asked) && Discovered(more, seeds, respond, asked')
    requires asked == Keys(Flatten(rounds)) && RoundsOk(all, rounds, seeds, respond, target, alpha)
    requires RoundOk(all, Flatten(rounds), round, seeds, respond, target, alpha)
    ensures RoundsOk(more, rounds + [round], seeds, respond, target, alpha)
  {
    hide RoundOk, Discovered;
    var rs := rounds + [round];
    forall i | 0 <= i < |rs| ensures RoundOk(more, Flatten(rs[..i]), rs[i], seeds, respond, target, alpha) {
      assert rs[..i] == rounds[..i];
      if i == |rounds| { assert rounds[..i] == rounds; }
      FlattenAppend(rounds[..i], rounds[i..]);
      assert rounds == rounds[..i] + rounds[i..];
      KeysAppend(Flatten(rounds[..i]), Flatten(rounds[i..]));
      GrownRound(all, more, Flatten(rounds[..i]), rs[i], seeds, respond, target, alpha, asked, asked');
    }
  }

  lemma GrownRound(all: seq<Contact>, more: seq<Contact>, before: seq<Contact>, round: seq<Contact>,
                   seeds: seq<Contact>, respond: Endpoint -> Response, target: Id, alpha: nat,
                   asked: set<Endpoint>, asked': set<Endpoint>)
    requires all <= more && Discovered(all, seeds, respond, asked) && Discovered(more, seeds, respond, asked')
    requires Keys(before) <= asked && RoundOk(all, before, round, seeds, respond, target, alpha)
    ensures RoundOk(more, before, round, seeds, respond, target, alpha)
  {
    hide DistanceTo;
    forall x <- more | Open(x, before, seeds, respond) ensures x in all {
      assert HeardOf(Key(x), seeds, respond, asked);
      SameEntry(all, more, x);
    }
    forall c <- round ensures c in more { InMore(all, more, c); }
  }

  lemma InMore(all: seq<Contact>, more: seq<Contact>, c: Contact)
    requires all <= more && c in all
    ensures c in more
  {
    var i :| 0 <= i < |all| && all[i] == c;
    assert more[i] == c;
  }

  lemma SameEntry(all: seq<Contact>, more: seq<Contact>, x: Contact)
    requires all <= more && DistinctKeys(more) && x in more && Key(x) in Keys(all)
    ensures x in all
  {
    var i := KeyOwner(all, Key(x));
    var j :| 0 <= j < |more| && more[j] == x;
    assert more[i] == all[i];
  }

  /** A round asks for something new each time, and only nodes it knows. */
  lemma RoundFacts(all: seq<Contact>, queried: set<Endpoint>, queries: seq<Endpoint>, target: Id, alpha: nat,
                   seeds: seq<Contact>, respond: Endpoint -> Response)
    requires NoneTwice(queries) && (forall e :: e in queried <==> e in queries)
    requires Discovered(all, seeds, respond, queried)
    ensures var cs := ToQuery(all, queried, target, alpha);
            && Keys(cs) <= Keys(all) && NoneTwice(queries + KeyList(cs))
            && forall e :: e in queried + Keys(cs) <==> e in queries + KeyList(cs)
  {
    hide DistanceTo, Keys, ToQuery;
    var cs := ToQuery(all, queried, target, alpha);
    ToQueryIs(all, queried, target, alpha);
    AppendQueries(queries, queried, cs);
    QueriedKnown(cs, all);
  }

  lemma QueriedKnown(cs: seq<Contact>, all: seq<Contact>)
    requires forall c :: c in cs ==> c in all
    ensures Keys(cs) <= Keys(all)
  {
    forall e | e in Keys(cs) ensures e in Keys(all) {
      var i := KeyOwner(cs, e);
      assert cs[i] in all;
    }
  }

  lemma DropOne(cs: seq<Contact>, i: nat)
    requires i < |cs|
    ensures Keys(cs) == Keys(cs[..i] + cs[i + 1..]) + {Key(cs[i])}
  {
    hide Keys, DistinctKeys;
    var a, x, b := cs[..i], cs[i], cs[i + 1..];
    assert cs == a + ([x] + b);
    KeysAppend(a, b);
    KeysAppend(a, [x] + b);
    KeysCons(x, b);
  }

  /**
   For all answers, arrival orders and stops: no endpoint is asked twice, at most maxIterations * alpha queries are
   made, and the result is the k closest of exactly the nodes heard of. Each round asks the alpha closest of the nodes
   open to it, and a round is made exactly as long as none of the reasons to end holds. So a lookup that nobody stops
   and that is below its limits has asked every node it heard of.
   */
  method IterativeLookup(target: Id, shortlist: seq<Seed>, respond: Endpoint -> Response, stopped: nat -> bool,
                         alpha: nat, k: nat, maxIterations: nat)
    returns (result: seq<Contact>, ghost queries: seq<Endpoint>, ghost all: seq<Contact>,
             ghost rounds: seq<seq<Contact>>)
    ensures NoneTwice(queries) && |queries| <= maxIterations * alpha && queries == KeyList(Flatten(rounds))
    ensures Discovered(all, SeedAll(shortlist), respond, set e | e in queries)
    ensures |result| == if k < |all| then k else |all|
    ensures forall x :: x in result ==> x in all
    ensures forall i, j :: 0 <= i < j < |result| ==> DistanceTo(result[i], target) <= DistanceTo(result[j], target)
    ensures forall x, y :: x in all && x !in result && y in result ==> DistanceTo(y, target) <= DistanceTo(x, target)
    ensures RoundsOk(all, rounds, SeedAll(shortlist), respond, target, alpha)
    ensures NoneLate(rounds, SeedAll(shortlist), respond, target, stopped, alpha, k, maxIterations)
    ensures Ends(rounds, SeedAll(shortlist), respond, target, stopped, alpha, k, maxIterations)
    ensures queries == [] <==>
            (forall i :: 0 <= i < |shortlist| ==> shortlist[i].id.None?)
            || alpha == 0 || maxIterations == 0 || stopped(0)
    ensures (forall i: nat :: !stopped(i)) && alpha > 0 && |queries| < k && |queries| < maxIterations ==>
              forall e :: e in Keys(all) ==> e in queries
  {
    hide DistanceTo, Discovered, Sort, RoundsOk, Ends, NoneLate;
    var run := new LookupRun(target, alpha, shortlist, respond);
    Rounds(run, SeedAll(shortlist), respond, stopped, k, maxIterations);
    queries, all, rounds := run.queries, run.allNodes, run.rounds;
    assert (set e | e in queries) == run.queried;
    ClosestOf(all, target, k);
    BootstrapDropped(shortlist);
    RoundsBound(all, rounds, SeedAll(shortlist), respond, target, alpha);
    MulMono(|rounds|, maxIterations, alpha);
    AllAsked(all, rounds, SeedAll(shortlist), respond, target, stopped, alpha, k, maxIterations);
    result := Take(Sort(run.allNodes, Closer(target)), k);
  }

  lemma AllAsked(all: seq<Contact>, rounds: seq<seq<Contact>>, seeds: seq<Contact>, respond: Endpoint -> Response,
                 target: Id, stopped: nat -> bool, alpha: nat, k: nat, maxIterations: nat)
    requires Discovered(all, seeds, respond, Keys(Flatten(rounds)))
    requires RoundsOk(all, rounds, seeds, respond, target, alpha)
    requires Ends(rounds, seeds, respond, target, stopped, alpha, k, maxIterations)
    ensures var queries := KeyList(Flatten(rounds));
            (forall i: nat :: !stopped(i)) && alpha > 0 && |queries| < k && |queries| < maxIterations ==>
              forall e :: e in Keys(all) ==> e in queries
  {
    KeyListKeys(Flatten(rounds));
    hide HeardOf, Keys, KeyList, SomeGain, RoundOk;
    RoundsBound(all, rounds, seeds, respond, target, alpha);
  }

  lemma {:induction false} RoundsBound(all: seq<Contact>, rounds: seq<seq<Contact>>, seeds: seq<Contact>,
                                       respond: Endpoint -> Response, target: Id, alpha: nat)
    requires RoundsOk(all, rounds, seeds, respond, target, alpha)
    ensures |rounds| <= |Flatten(rounds)| <= |rounds| * alpha
    decreases |rounds|
  {
    if rounds != [] {
      hide RoundOk, RoundsOk, Flatten;
      var front, last := rounds[..|rounds| - 1], rounds[|rounds| - 1];
      LastRound(all, rounds, seeds, respond, target, alpha);
      RoundsBound(all, front, seeds, respond, target, alpha);
      assert rounds == front + [last];
      FlattenSnoc(front, last);
      MulGap(|front|, |rounds|, alpha);
    }
  }

  lemma LastRound(all: seq<Contact>, rounds: seq<seq<Contact>>, seeds: seq<Contact>, respond: Endpoint -> Response,
                  target: Id, alpha: nat)
    requires rounds != [] && RoundsOk(all, rounds, seeds, respond, target, alpha)
    ensures RoundsOk(all, rounds[..|rounds| - 1], seeds, respond, target, alpha)
    ensures 0 < |rounds[|rounds| - 1]| <= alpha
  {
    var front := rounds[..|rounds| - 1];
    assert RoundOk(all, Flatten(front), rounds[|rounds| - 1], seeds, respond, target, alpha);
    hide RoundOk, Flatten;
    forall i | 0 <= i < |front| ensures RoundOk(all, Flatten(front[..i]), front[i], seeds, respond, target, alpha) {
      assert front[..i] == rounds[..i];
    }
  }

  method Rounds(run: LookupRun, ghost seeds: seq<Contact>, respond: Endpoint -> Response, stopped: nat -> bool,
                k: nat, maxIterations: nat)
    requires run.Valid(seeds, respond) && run.Traced(seeds, respond)
    requires run.queries == [] && run.rounds == [] && run.allNodes == seeds
    modifies run
    ensures run.Valid(seeds, respond) && run.Traced(seeds, respond) && |run.rounds| <= maxIterations
    ensures run.queries == [] <==> seeds == [] || run.alpha == 0 || maxIterations == 0 || stopped(0)
    ensures NoneLate(run.rounds, seeds, respond, run.target, stopped, run.alpha, k, maxIterations)
    ensures Ends(run.rounds, seeds, respond, run.target, stopped, run.alpha, k, maxIterations)
  {
    NoRounds(seeds, respond, run.target, stopped, run.alpha, k, maxIterations);
    hide ToQuery, Settled, Ends, NoneLate, LookupRun.Valid, LookupRun.Traced;
    var iteration := 0;
    while iteration < maxIterations
      invariant run.Valid(seeds, respond) && run.Traced(seeds, respond)
      invariant iteration == |run.rounds| <= maxIterations
      invariant iteration == 0 ==> run.queries == [] && run.allNodes == seeds
      invariant iteration > 0 ==> run.queries != [] && seeds != [] && run.alpha > 0 && !stopped(0)
      invariant !Settled(run.rounds, k, respond, run.target)
      invariant NoneLate(run.rounds, seeds, respond, run.target, stopped, run.alpha, k, maxIterations)
      decreases maxIterations - iteration
    {
      EndsIff(run, seeds, respond, stopped, k, maxIterations);
      ghost var before := run.rounds;
      if stopped(iteration) { break; }
      iteration := iteration + 1;
      RoundSize(run, seeds, respond);
      var toQuery := ToQuery(run.allNodes, run.queried, run.target, run.alpha);
      if |toQuery| == 0 { break; }
      run.Round(toQuery, seeds, respond);
      NoneLateMore(before, toQuery, seeds, respond, run.target, stopped, run.alpha, k, maxIterations);
      SettledIff(run, seeds, respond, k);
      if |run.queried| >= k && run.progress.noProgress >= 2 { break; }
    }
    EndsAtLimit(run.rounds, seeds, respond, run.target, stopped, run.alpha, k, maxIterations);
  }

  lemma NoRounds(seeds: seq<Contact>, respond: Endpoint -> Response, target: Id, stopped: nat -> bool, alpha: nat,
                 k: nat, maxIterations: nat)
    ensures !Settled([], k, respond, target)
    ensures NoneLate([], seeds, respond, target, stopped, alpha, k, maxIterations)
  {
  }

  lemma NoneLateMore(rounds: seq<seq<Contact>>, round: seq<Contact>, seeds: seq<Contact>,
                     respond: Endpoint -> Response, target: Id, stopped: nat -> bool, alpha: nat, k: nat,
                     maxIterations: nat)
    requires NoneLate(rounds, seeds, respond, target, stopped, alpha, k, maxIterations)
    requires !Ends(rounds, seeds, respond, target, stopped, alpha, k, maxIterations)
    ensures NoneLate(rounds + [round], seeds, respond, target, stopped, alpha, k, maxIterations)
  {
    hide Ends;
    forall i | 0 <= i <= |rounds| ensures (rounds + [round])[..i] == rounds[..i] {}
    assert rounds[..|rounds|] == rounds;
  }

  /** Before the limit, and unless it is settled, a lookup ends exactly when it is stopped or has nothing to ask. */
  lemma EndsIff(run: LookupRun, seeds: seq<Contact>, respond: Endpoint -> Response, stopped: nat -> bool, k: nat,
                maxIterations: nat)
    requires run.Valid(seeds, respond) && run.Traced(seeds, respond) && |run.rounds| < maxIterations
    requires !Settled(run.rounds, k, respond, run.target)
    ensures Ends(run.rounds, seeds, respond, run.target, stopped, run.alpha, k, maxIterations)
       <==> stopped(|run.rounds|) || ToQuery(run.allNodes, run.queried, run.target, run.alpha) == []
  {
    hide Settled, ToQuery, DistanceTo, RoundsOk, NoneTwice, ClosestIs, SomeGain;
    var all, asked := run.allNodes, run.queried;
    var r := ToQuery(all, asked, run.target, run.alpha);
    ToQueryIs(all, asked, run.target, run.alpha);
    forall e | e in Keys(all) && e !in asked ensures run.alpha > 0 ==> r != [] {
      var i := KeyOwner(all, e);
      assert all[i] in all;
    }
    if r != [] {
      assert r[0] in r;
      KeyIn(all, r[0]);
    }
  }

  lemma EndsAtLimit(rounds: seq<seq<Contact>>, seeds: seq<Contact>, respond: Endpoint -> Response, target: Id,
                    stopped: nat -> bool, alpha: nat, k: nat, maxIterations: nat)
    ensures |rounds| == maxIterations || Settled(rounds, k, respond, target) ==>
              Ends(rounds, seeds, respond, target, stopped, alpha, k, maxIterations)
  {
    hide Settled, HeardOf, Keys;
  }

  /** What the two counters say is what the trace says. */
  lemma SettledIff(run: LookupRun, seeds: seq<Contact>, respond: Endpoint -> Response, k: nat)
    requires run.Valid(seeds, respond) && run.Traced(seeds, respond)
    ensures |run.queried| >= k && run.progress.noProgress >= 2 <==> Settled(run.rounds, k, respond, run.target)
  {
    hide Discovered, RoundsOk, ClosestIs, SomeGain, Keys;
    NoneTwiceSize(run.queries);
    assert (set e | e in run.queries) == run.queried;
  }

  lemma {:induction false} NoneTwiceSize(qs: seq<Endpoint>)
    requires NoneTwice(qs)
    ensures |set e | e in qs| == |qs|
  {
    if qs != [] {
      var front, last := qs[..|qs| - 1], qs[|qs| - 1];
      NoneTwiceSize(front);
      assert (set e | e in qs) == (set e | e in front) + {last};
    }
  }

  lemma RoundSize(run: LookupRun, seeds: seq<Contact>, respond: Endpoint -> Response)
    requires run.Valid(seeds, respond)
    ensures var n := |ToQuery(run.allNodes, run.queried, run.target, run.alpha)|;
            run.queries == [] ==> n == if run.alpha < |run.allNodes| then run.alpha else |run.allNodes|
  {
    ToQueryIs(run.allNodes, run.queried, run.target, run.alpha);
    if run.queries == [] {
      assert run.queried == {};
      AllUnqueried(run.allNodes);
    }
  }

  lemma {:induction false} AllUnqueried(all: seq<Contact>)
    ensures Unqueried(all, {}) == all
  {
    if all != [] {
      AllUnqueried(all[..|all| - 1]);
      assert all == all[..|all| - 1] + [all[|all| - 1]];
    }
  }
}
