/** The OAuth flow cache: two tables with a ten-minute life, collected lazily on every access. */
module FlowCache {
  import opened Bytes
  import opened Utf8
  import opened Me

  /** 600 seconds, in nanoseconds. */
  const FLOW_TTL: nat := 600_000_000_000

  type State = string

  /** A flow between its start and its callback. `serial` tells insertions apart (in the relay the
      fresh keys of each flow do); `session` is what the token exchange needs. */
  datatype Flow = Flow(serial: nat, peerHex: Octets, handle: Text, did: Text, session: Octets)

  datatype Stored<+V> = Stored(value: V, at: nat)

  type Table<V> = map<State, Stored<V>>

  /** `duration_since` saturates at zero. */
  predicate Alive<V>(s: Stored<V>, now: nat) {
    (if now >= s.at then now - s.at else 0) < FLOW_TTL
  }

  function Collected<V>(m: Table<V>, now: nat): Table<V> {
    map k | k in m && Alive(m[k], now) :: m[k]
  }

  datatype Cache = Cache(flows: Table<Flow>, results: Table<SignedBinding>)

  datatype Op =
    | InsertFlow(state: State, flow: Flow, at: nat, now: nat)
    | TakeFlow(state: State, now: nat)
    | InsertResult(state: State, signed: SignedBinding, at: nat, now: nat)
    | GetResult(state: State, now: nat)

  function After(c: Cache, op: Op): Cache {
    var flows, results := Collected(c.flows, op.now), Collected(c.results, op.now);
    match op
    case InsertFlow(k, f, at, _) => Cache(flows[k := Stored(f, at)], results)
    case TakeFlow(k, _) => Cache(flows - {k}, results)
    case InsertResult(k, b, at, _) => Cache(flows, results[k := Stored(b, at)])
    case GetResult(_, _) => Cache(flows, results)
  }

  function Taken(c: Cache, k: State, now: nat): Option<Flow> {
    var flows := Collected(c.flows, now);
    if k in flows then Some(flows[k].value) else None
  }

  function Got(c: Cache, k: State, now: nat): Option<SignedBinding> {
    var results := Collected(c.results, now);
    if k in results then Some(results[k].value) else None
  }

  class FlowCache {
    var flows: Table<Flow>
    var results: Table<SignedBinding>

    constructor ()
      ensures Now() == Cache(map[], map[])
    {
      flows, results := map[], map[];
    }

    ghost function Now(): Cache
      reads this
    {
      Cache(flows, results)
    }

    /** `gc` */
    method CollectGarbage(now: nat)
      modifies this
      ensures flows == Collected(old(flows), now) && results == Collected(old(results), now)
      ensures flows == map k | k in old(flows) && now < old(flows)[k].at + 600_000_000_000 :: old(flows)[k]
      ensures results == map k | k in old(results) && now < old(results)[k].at + 600_000_000_000 :: old(results)[k]
    {
      flows := map k | k in flows && Alive(flows[k], now) :: flows[k];
      results := map k | k in results && Alive(results[k], now) :: results[k];
    }

    method AddFlow(state: State, flow: Flow, at: nat, now: nat)
      modifies this
      ensures Now() == After(old(Now()), InsertFlow(state, flow, at, now))
    {
      CollectGarbage(now);
      flows := flows[state := Stored(flow, at)];
    }

    /** Reading a flow consumes it. */
    method Take(state: State, now: nat) returns (r: Option<Flow>)
      modifies this
      ensures r == Taken(old(Now()), state, now)
      ensures Now() == After(old(Now()), TakeFlow(state, now))
    {
      CollectGarbage(now);
      r := if state in flows then Some(flows[state].value) else None;
      flows := flows - {state};
    }

    method AddResult(state: State, signed: SignedBinding, at: nat, now: nat)
      modifies this
      ensures Now() == After(old(Now()), InsertResult(state, signed, at, now))
    {
      CollectGarbage(now);
      results := results[state := Stored(signed, at)];
    }

    /** Reading a result leaves it in place. */
    method Get(state: State, now: nat) returns (r: Option<SignedBinding>)
      modifies this
      ensures r == Got(old(Now()), state, now)
      ensures Now() == After(old(Now()), GetResult(state, now))
    {
      CollectGarbage(now);
      r := if state in results then Some(results[state].value) else None;
    }
  }

  // ----- lazy collection against the history -----

  function Run(ops: seq<Op>): Cache {
    if ops == [] then Cache(map[], map[]) else After(Run(ops[..|ops| - 1]), ops[|ops| - 1])
  }

  /** The flow put under `k` and not taken or replaced since, however old. */
  function OpenFlow(ops: seq<Op>, k: State): Option<Stored<Flow>> {
    if ops == [] then None
    else
      match ops[|ops| - 1]
      case InsertFlow(s, f, at, _) => if s == k then Some(Stored(f, at)) else OpenFlow(ops[..|ops| - 1], k)
      case TakeFlow(s, _) => if s == k then None else OpenFlow(ops[..|ops| - 1], k)
      case _ => OpenFlow(ops[..|ops| - 1], k)
  }

  /** The result last put under `k`, however old. */
  function LastResult(ops: seq<Op>, k: State): Option<Stored<SignedBinding>> {
    if ops == [] then None
    else
      match ops[|ops| - 1]
      case InsertResult(s, b, at, _) => if s == k then Some(Stored(b, at)) else LastResult(ops[..|ops| - 1], k)
      case _ => LastResult(ops[..|ops| - 1], k)
  }

  /** What an ideal cache answers, whose entries vanish 600 seconds after their stamp. */
  function Ideal<V>(put: Option<Stored<V>>, now: nat): Option<V> {
    if put.Some? && now < put.value.at + 600_000_000_000 then Some(put.value.value) else None
  }

  /** The latest time any operation has shown since a flow was last put under `k`. */
  function FlowClock(ops: seq<Op>, k: State): nat {
    if ops == [] then 0
    else
      var last, earlier := ops[|ops| - 1], FlowClock(ops[..|ops| - 1], k);
      if last.InsertFlow? && last.state == k then 0 else Later(earlier, last.now)
  }

  /** The same for the result under `k`. */
  function ResultClock(ops: seq<Op>, k: State): nat {
    if ops == [] then 0
    else
      var last, earlier := ops[|ops| - 1], ResultClock(ops[..|ops| - 1], k);
      if last.InsertResult? && last.state == k then 0 else Later(earlier, last.now)
  }

  function Later(a: nat, b: nat): nat {
    if a >= b then a else b
  }

  lemma AliveAtBoth<V>(s: Stored<V>, a: nat, b: nat)
    ensures Alive(s, Later(a, b)) <==> Alive(s, a) && Alive(s, b)
    ensures Alive(s, 0)
  {
  }

  /** The table holds what was last put there, unless some time shown since then expired it. */
  predicate Holds<V(==)>(m: Table<V>, k: State, put: Option<Stored<V>>, clock: nat) {
    if put.Some? && Alive(put.value, clock) then k in m && m[k] == put.value else k !in m
  }

  lemma HoldsCollected<V>(m: Table<V>, k: State, put: Option<Stored<V>>, clock: nat, now: nat)
    requires Holds(m, k, put, clock)
    ensures Holds(Collected(m, now), k, put, Later(clock, now))
  {
    if put.Some? {
      AliveAtBoth(put.value, clock, now);
    }
  }

  lemma {:induction false} FlowsHold(ops: seq<Op>, k: State)
    ensures Holds(Run(ops).flows, k, OpenFlow(ops, k), FlowClock(ops, k))
  {
    if ops != [] {
      var front, op := ops[..|ops| - 1], ops[|ops| - 1];
      FlowsHold(front, k);
      HoldsCollected(Run(front).flows, k, OpenFlow(front, k), FlowClock(front, k), op.now);
    }
  }

  lemma {:induction false} ResultsHold(ops: seq<Op>, k: State)
    ensures Holds(Run(ops).results, k, LastResult(ops, k), ResultClock(ops, k))
  {
    if ops != [] {
      var front, op := ops[..|ops| - 1], ops[|ops| - 1];
      ResultsHold(front, k);
      HoldsCollected(Run(front).results, k, LastResult(front, k), ResultClock(front, k), op.now);
    }
  }

  /** Under any clock at all, an access answers as an ideal cache would, whose entries vanish 600
      seconds after their stamp, but read at the latest time shown since the entry was put there. */
  lemma {:induction false} AnswersExactly(ops: seq<Op>, k: State, now: nat)
    ensures Taken(Run(ops), k, now) == Ideal(OpenFlow(ops, k), Later(FlowClock(ops, k), now))
    ensures Got(Run(ops), k, now) == Ideal(LastResult(ops, k), Later(ResultClock(ops, k), now))
  {
    FlowsHold(ops, k);
    ResultsHold(ops, k);
    HoldsCollected(Run(ops).flows, k, OpenFlow(ops, k), FlowClock(ops, k), now);
    HoldsCollected(Run(ops).results, k, LastResult(ops, k), ResultClock(ops, k), now);
  }

  /** The entry was expired at some time shown since it was put, yet by the clock of this access lives. */
  predicate Revived<V>(put: Option<Stored<V>>, clock: nat, now: nat) {
    put.Some? && now < put.value.at + 600_000_000_000 <= clock
  }

  /** So an answer is the ideal one exactly when the clock has not gone back over an expiry. */
  lemma {:induction false} LazyAnswersAreIdealIff(ops: seq<Op>, k: State, now: nat)
    ensures Taken(Run(ops), k, now) == Ideal(OpenFlow(ops, k), now)
      <==> !Revived(OpenFlow(ops, k), FlowClock(ops, k), now)
    ensures Got(Run(ops), k, now) == Ideal(LastResult(ops, k), now)
      <==> !Revived(LastResult(ops, k), ResultClock(ops, k), now)
  {
    AnswersExactly(ops, k, now);
  }

  lemma {:induction false} ClocksBelow(ops: seq<Op>, k: State, now: nat)
    requires forall i | 0 <= i < |ops| :: ops[i].now <= now
    ensures FlowClock(ops, k) <= now && ResultClock(ops, k) <= now
  {
    if ops != [] {
      ClocksBelow(ops[..|ops| - 1], k, now);
    }
  }

  /** Under a clock that never shows an earlier time than before, every answer is the ideal one: the
      flow last put under the state and not taken since, or the result last put there, up to 600 seconds
      after its stamp and no longer. Reading results again changes nothing. */
  lemma {:induction false} LazyAnswersAreIdeal(ops: seq<Op>, k: State, now: nat)
    requires forall i | 0 <= i < |ops| :: ops[i].now <= now
    ensures Taken(Run(ops), k, now) == (
              match OpenFlow(ops, k)
              case None => None
              case Some(put) => if now < put.at + 600_000_000_000 then Some(put.value) else None)
    ensures Got(Run(ops), k, now) == (
              match LastResult(ops, k)
              case None => None
              case Some(put) => if now < put.at + 600_000_000_000 then Some(put.value) else None)
  {
    ClocksBelow(ops, k, now);
    AnswersExactly(ops, k, now);
  }

  lemma {:induction false} OpenFlowIsLastPut(ops: seq<Op>, k: State, i: nat)
    requires i < |ops| && ops[i].InsertFlow? && ops[i].state == k
    requires forall j | i < j < |ops| && ops[j].state == k :: !ops[j].InsertFlow? && !ops[j].TakeFlow?
    ensures OpenFlow(ops, k) == Some(Stored(ops[i].flow, ops[i].at))
  {
    if i < |ops| - 1 {
      OpenFlowIsLastPut(ops[..|ops| - 1], k, i);
    }
  }

  /** A flow taken and not put again is gone. */
  lemma {:induction false} TakenFlowIsGone(ops: seq<Op>, k: State, i: nat)
    requires i < |ops| && ops[i].TakeFlow? && ops[i].state == k
    requires forall j | i < j < |ops| && ops[j].state == k :: !ops[j].InsertFlow?
    ensures OpenFlow(ops, k) == None
  {
    if i < |ops| - 1 {
      TakenFlowIsGone(ops[..|ops| - 1], k, i);
    }
  }

  lemma {:induction false} LastResultIsLastPut(ops: seq<Op>, k: State, i: nat)
    requires i < |ops| && ops[i].InsertResult? && ops[i].state == k
    requires forall j | i < j < |ops| && ops[j].state == k :: !ops[j].InsertResult?
    ensures LastResult(ops, k) == Some(Stored(ops[i].signed, ops[i].at))
  {
    if i < |ops| - 1 {
      LastResultIsLastPut(ops[..|ops| - 1], k, i);
    }
  }

  /** By position: the flow put in by operation `i`, with no other insertion or take under its state
      after it, is answered for 600 seconds from its stamp. */
  lemma FlowIsAnswered(ops: seq<Op>, i: nat, now: nat)
    requires forall j | 0 <= j < |ops| :: ops[j].now <= now
    requires i < |ops| && ops[i].InsertFlow?
    requires forall j | i < j < |ops| && ops[j].state == ops[i].state :: !ops[j].InsertFlow? && !ops[j].TakeFlow?
    ensures Taken(Run(ops), ops[i].state, now) == if now < ops[i].at + 600_000_000_000 then Some(ops[i].flow) else None
  {
    OpenFlowIsLastPut(ops, ops[i].state, i);
    LazyAnswersAreIdeal(ops, ops[i].state, now);
  }

  /** One that was taken, and not put in again, is answered never more. */
  lemma TakenFlowIsNotAnswered(ops: seq<Op>, i: nat, now: nat)
    requires forall j | 0 <= j < |ops| :: ops[j].now <= now
    requires i < |ops| && ops[i].TakeFlow?
    requires forall j | i < j < |ops| && ops[j].state == ops[i].state :: !ops[j].InsertFlow?
    ensures Taken(Run(ops), ops[i].state, now) == None
  {
    TakenFlowIsGone(ops, ops[i].state, i);
    LazyAnswersAreIdeal(ops, ops[i].state, now);
  }

  /** The result put in by operation `i`, with no other after it, is answered every time for 600 seconds. */
  lemma ResultIsAnswered(ops: seq<Op>, i: nat, now: nat)
    requires forall j | 0 <= j < |ops| :: ops[j].now <= now
    requires i < |ops| && ops[i].InsertResult?
    requires forall j | i < j < |ops| && ops[j].state == ops[i].state :: !ops[j].InsertResult?
    ensures Got(Run(ops), ops[i].state, now) == if now < ops[i].at + 600_000_000_000 then Some(ops[i].signed) else None
  {
    LastResultIsLastPut(ops, ops[i].state, i);
    LazyAnswersAreIdeal(ops, ops[i].state, now);
  }

  /** What was never put in is never answered. */
  lemma {:induction false} NothingFromNothing(ops: seq<Op>, k: State, now: nat)
    ensures (forall i | 0 <= i < |ops| && ops[i].state == k :: !ops[i].InsertFlow?) ==> Taken(Run(ops), k, now) == None
    ensures (forall i | 0 <= i < |ops| && ops[i].state == k :: !ops[i].InsertResult?) ==> Got(Run(ops), k, now) == None
  {
    if ops != [] {
      NothingFromNothing(ops[..|ops| - 1], k, now);
    }
  }

  /** An entry collected at a later time is missing at an earlier one. */
  lemma ClockMustNotGoBack(f: Flow)
    ensures var ops := [InsertFlow("s", f, 0, 0), GetResult("t", FLOW_TTL)];
      Taken(Run(ops), "s", 0) == None && Ideal(OpenFlow(ops, "s"), 0) == Some(f)
  {
  }
}
