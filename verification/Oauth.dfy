/** The atproto login as concurrent handlers over the flow cache: start, callback in two halves around
    the token exchange, result. */
module Oauth {
  import opened Bytes
  import opened Utf8
  import opened Me
  import opened FlowCache
  import Platform
  import Identity

  function Provider(): Text {
    AsciiText("atproto")
  }

  datatype Env = Env(sign: Octets -> Option<Octets>, relayKey: Key)

  /** What the token endpoint led to: an error of any kind, or a `sub`. */
  datatype TokenReply = NoToken | Sub(sub: Octets)

  datatype Issue = Issue(state: State, serial: nat, sub: Octets, signed: SignedBinding)

  /** `waiting`: callbacks between taking their flow and the end of their token exchange. `started`,
      `taken` and `issued` are the history: flows inserted (by serial), serials taken, results added. */
  datatype Relay = Relay(
    cache: Cache,
    waiting: map<nat, (State, Flow)>,
    started: seq<(State, Flow)>,
    taken: set<nat>,
    issued: seq<Issue>)

  datatype Step =
    | StartDone(state: State, peer: Key, handle: Text, did: Text, session: Octets, at: nat, now: nat)
    | CallbackTakes(handler: nat, state: State, now: nat)
    | CallbackEnds(handler: nat, reply: TokenReply, issuedAt: u64, at: nat, now: nat)
    | ResultRead(state: State, now: nat)

  /** "@" in front of the handle. */
  function AtHandle(handle: Text): Text {
    ValidAscii([64]);
    ValidConcat([64], handle);
    [64] + handle
  }

  /** What the relay signs: the key, the DID and the "@"-handle of one login. */
  function ClaimOf(peer: Key, did: Text, handle: Text, issuedAt: u64): BindingClaim {
    BindingClaim(peer, Provider(), did, Some(AtHandle(handle)), issuedAt)
  }

  datatype CallbackError = TokenFailed | SubMismatch | BadPeerPubkey | SignFailed

  /** The second half of `handle_callback`: check the subject, rebuild the key, sign. */
  function Finish(env: Env, flow: Flow, reply: TokenReply, issuedAt: u64): (r: Result<SignedBinding, CallbackError>)
    ensures r.Ok? ==> reply == Sub(flow.did) && r.value.signer == env.relayKey
    ensures r.Ok? ==> env.sign(ClaimBytes(r.value.claim)) == Some(r.value.signature)
    ensures r.Ok? ==> UnHex(flow.peerHex) == Ok(r.value.claim.peer)
    ensures r.Ok? ==> r.value.claim == ClaimOf(r.value.claim.peer, flow.did, flow.handle, issuedAt)
    ensures reply != Sub(flow.did) ==> r == Err(if reply.NoToken? then TokenFailed else SubMismatch)
  {
    match reply
    case NoToken => Err(TokenFailed)
    case Sub(sub) =>
      if sub != flow.did then Err(SubMismatch)
      else
        match UnHex(flow.peerHex)
        case Err(_) => Err(BadPeerPubkey)
        case Ok(peer) =>
          if |peer| != 32 then Err(BadPeerPubkey)
          else
            var claim := ClaimOf(peer, flow.did, flow.handle, issuedAt);
            match env.sign(ClaimBytes(claim))
            case None => Err(SignFailed)
            case Some(signature) => Ok(SignedBinding(claim, signature, env.relayKey))
  }

  /** The end of `handle_start`. */
  function StartFor(r: Relay, s: State, flow: Flow, at: nat, now: nat): Relay {
    r.(cache := After(r.cache, InsertFlow(s, flow, at, now)), started := r.started + [(s, flow)])
  }

  /** The first half of `handle_callback`: a flow that is there is taken before anything is awaited. */
  function TakeFor(r: Relay, h: nat, s: State, now: nat): Relay {
    if h in r.waiting then r
    else
      var flow := Taken(r.cache, s, now);
      var cache := After(r.cache, TakeFlow(s, now));
      if flow.None? then r.(cache := cache)
      else r.(cache := cache, waiting := r.waiting[h := (s, flow.value)], taken := r.taken + {flow.value.serial})
  }

  /** The callback is over; what it signed, if anything, is stored under its state. */
  function EndFor(r: Relay, h: nat, signed: Result<SignedBinding, CallbackError>, reply: TokenReply, at: nat,
    now: nat): Relay
    requires signed.Ok? ==> reply.Sub?
  {
    if h !in r.waiting then r
    else if signed.Err? then r.(waiting := r.waiting - {h})
    else
      var (s, flow) := r.waiting[h];
      r.(waiting := r.waiting - {h},
         cache := After(r.cache, InsertResult(s, signed.value, at, now)),
         issued := r.issued + [Issue(s, flow.serial, reply.sub, signed.value)])
  }

  function SignedFor(env: Env, r: Relay, h: nat, reply: TokenReply, issuedAt: u64):
    (signed: Result<SignedBinding, CallbackError>)
    ensures signed.Ok? ==> h in r.waiting && reply == Sub(r.waiting[h].1.did)
  {
    if h in r.waiting then Finish(env, r.waiting[h].1, reply, issuedAt) else Err(TokenFailed)
  }

  function Apply(env: Env, r: Relay, step: Step): Relay {
    match step
    case StartDone(s, peer, handle, did, session, at, now) =>
      StartFor(r, s, Flow(|r.started|, HexOf(peer), handle, did, session), at, now)
    case CallbackTakes(h, s, now) => TakeFor(r, h, s, now)
    case CallbackEnds(h, reply, issuedAt, at, now) =>
      EndFor(r, h, SignedFor(env, r, h, reply, issuedAt), reply, at, now)
    case ResultRead(s, now) => r.(cache := After(r.cache, GetResult(s, now)))
  }

  function Run(env: Env, steps: seq<Step>): Relay {
    if steps == [] then Relay(Cache(map[], map[]), map[], [], {}, [])
    else Apply(env, Run(env, steps[..|steps| - 1]), steps[|steps| - 1])
  }

  // ----- the invariant -----

  /** The flow is the one inserted under this state with its serial. */
  predicate Started(r: Relay, s: State, f: Flow) {
    f.serial < |r.started| && r.started[f.serial] == (s, f)
  }

  /** The result carries what its flow entitles it to. */
  ghost predicate Entitled(env: Env, r: Relay, i: Issue) {
    && i.serial < |r.started| && i.serial in r.taken
    && var (s, f) := r.started[i.serial];
       i.state == s && i.sub == f.did && exists t: u64 :: Finish(env, f, Sub(i.sub), t) == Ok(i.signed)
  }

  /** The flow has its place for serial, and a key. */
  ghost predicate Numbered(started: seq<(State, Flow)>, n: nat)
    requires n < |started|
  {
    started[n].1.serial == n && exists peer: Key :: started[n].1.peerHex == HexOf(peer)
  }

  ghost predicate StartedOk(r: Relay) {
    && (forall n: nat | n < |r.started| :: Numbered(r.started, n))
    && (forall n | n in r.taken :: n < |r.started|)
  }

  predicate FlowsOk(r: Relay) {
    forall s | s in r.cache.flows :: Started(r, s, r.cache.flows[s].value) && r.cache.flows[s].value.serial !in r.taken
  }

  predicate WaitingOk(r: Relay) {
    && (forall h | h in r.waiting :: Started(r, r.waiting[h].0, r.waiting[h].1) && r.waiting[h].1.serial in r.taken)
    && (forall h, g | h in r.waiting && g in r.waiting && h != g :: r.waiting[h].1.serial != r.waiting[g].1.serial)
  }

  ghost predicate IssuedOk(env: Env, r: Relay) {
    (forall i | 0 <= i < |r.issued| :: Entitled(env, r, r.issued[i])) && Apart(r.issued, r.waiting)
  }

  /** Issues come from different flows, and none from a flow whose callback is under way. */
  predicate Apart(issued: seq<Issue>, waiting: map<nat, (State, Flow)>) {
    && (forall i, j | 0 <= i < j < |issued| :: issued[i].serial != issued[j].serial)
    && (forall i, h | 0 <= i < |issued| && h in waiting :: issued[i].serial != waiting[h].1.serial)
  }

  /** Each result in the cache is one that was issued under its state. */
  predicate IssuedUnder(issued: seq<Issue>, s: State, b: SignedBinding) {
    exists i | 0 <= i < |issued| :: issued[i].state == s && issued[i].signed == b
  }

  predicate ResultsOk(r: Relay) {
    forall s | s in r.cache.results :: IssuedUnder(r.issued, s, r.cache.results[s].value)
  }

  ghost predicate Inv(env: Env, r: Relay) {
    StartedOk(r) && FlowsOk(r) && WaitingOk(r) && IssuedOk(env, r) && ResultsOk(r)
  }

  lemma StartedAfterStart(r: Relay, s: State, flow: Flow, peer: Key, at: nat, now: nat)
    requires StartedOk(r) && flow.serial == |r.started| && flow.peerHex == HexOf(peer)
    ensures StartedOk(StartFor(r, s, flow, at, now))
  {
    var r' := StartFor(r, s, flow, at, now);
    forall n: nat | n < |r'.started| ensures Numbered(r'.started, n) {
      if n < |r.started| {
        assert Numbered(r.started, n) && r'.started[n] == r.started[n];
      }
    }
  }

  lemma TablesAfterStart(r: Relay, s: State, flow: Flow, at: nat, now: nat)
    requires StartedOk(r) && FlowsOk(r) && WaitingOk(r) && ResultsOk(r) && flow.serial == |r.started|
    ensures var r' := StartFor(r, s, flow, at, now); FlowsOk(r') && WaitingOk(r') && ResultsOk(r')
  {
  }

  lemma IssuedAfterStart(env: Env, r: Relay, s: State, flow: Flow, at: nat, now: nat)
    requires IssuedOk(env, r)
    ensures IssuedOk(env, StartFor(r, s, flow, at, now))
  {
    var r' := StartFor(r, s, flow, at, now);
    forall i | 0 <= i < |r'.issued| ensures Entitled(env, r', r'.issued[i]) {
      assert Entitled(env, r, r.issued[i]);
      assert r'.started[r.issued[i].serial] == r.started[r.issued[i].serial];
    }
  }

  lemma InvAfterStart(env: Env, r: Relay, step: Step)
    requires Inv(env, r) && step.StartDone?
    ensures Inv(env, Apply(env, r, step))
  {
    var flow := Flow(|r.started|, HexOf(step.peer), step.handle, step.did, step.session);
    StartedAfterStart(r, step.state, flow, step.peer, step.at, step.now);
    TablesAfterStart(r, step.state, flow, step.at, step.now);
    IssuedAfterStart(env, r, step.state, flow, step.at, step.now);
  }

  /** Taking leaves flows that were there, under other states. */
  lemma CacheAfterTake(c: Cache, s: State, now: nat)
    ensures var c' := After(c, TakeFlow(s, now));
      && (forall k | k in c'.flows :: k != s && k in c.flows && c'.flows[k] == c.flows[k])
      && (forall k | k in c'.results :: k in c.results && c'.results[k] == c.results[k])
      && (Taken(c, s, now).Some? ==> s in c.flows && c.flows[s].value == Taken(c, s, now).value)
  {
  }

  lemma FlowsAfterTake(r: Relay, h: nat, s: State, now: nat)
    requires FlowsOk(r) && ResultsOk(r)
    ensures FlowsOk(TakeFor(r, h, s, now))
    ensures ResultsOk(TakeFor(r, h, s, now))
  {
  }

  lemma WaitingAfterTake(r: Relay, h: nat, s: State, now: nat)
    requires WaitingOk(r) && FlowsOk(r)
    ensures WaitingOk(TakeFor(r, h, s, now))
  {
    CacheAfterTake(r.cache, s, now);
    var r' := TakeFor(r, h, s, now);
    forall g | g in r'.waiting && g in r.waiting
      ensures r'.waiting[g] == r.waiting[g] && r.waiting[g].1.serial in r.taken
    {
    }
  }

  lemma IssuedAfterTake(env: Env, r: Relay, h: nat, s: State, now: nat)
    requires IssuedOk(env, r) && FlowsOk(r)
    ensures IssuedOk(env, TakeFor(r, h, s, now))
  {
    CacheAfterTake(r.cache, s, now);
    var r' := TakeFor(r, h, s, now);
    forall i | 0 <= i < |r'.issued| ensures Entitled(env, r', r'.issued[i]) && r'.issued[i].serial in r.taken {
      assert Entitled(env, r, r.issued[i]);
    }
  }

  lemma StartedAfterTake(r: Relay, h: nat, s: State, now: nat)
    requires StartedOk(r) && FlowsOk(r)
    ensures StartedOk(TakeFor(r, h, s, now))
  {
    CacheAfterTake(r.cache, s, now);
    assert TakeFor(r, h, s, now).started == r.started;
  }

  lemma InvAfterTake(env: Env, r: Relay, step: Step)
    requires Inv(env, r) && step.CallbackTakes?
    ensures Inv(env, Apply(env, r, step))
  {
    FlowsAfterTake(r, step.handler, step.state, step.now);
    WaitingAfterTake(r, step.handler, step.state, step.now);
    IssuedAfterTake(env, r, step.handler, step.state, step.now);
    StartedAfterTake(r, step.handler, step.state, step.now);
  }

  lemma CacheAfterResult(c: Cache, s: State, b: SignedBinding, at: nat, now: nat)
    ensures var c' := After(c, InsertResult(s, b, at, now));
      && (forall k | k in c'.flows :: k in c.flows && c'.flows[k] == c.flows[k])
      && (forall k | k in c'.results ::
            if k == s then c'.results[k].value == b else k in c.results && c'.results[k] == c.results[k])
  {
  }

  lemma ResultsAfterEnd(env: Env, r: Relay, step: Step)
    requires Inv(env, r) && step.CallbackEnds?
    ensures ResultsOk(Apply(env, r, step)) && FlowsOk(Apply(env, r, step))
  {
    var r' := Apply(env, r, step);
    if |r'.issued| > |r.issued| {
      var i := r'.issued[|r.issued|];
      CacheAfterResult(r.cache, i.state, i.signed, step.at, step.now);
      forall s | s in r'.cache.results ensures IssuedUnder(r'.issued, s, r'.cache.results[s].value) {
        IssuedGrows(r, r', s);
      }
    }
  }

  lemma EntitledAfterEnd(env: Env, r: Relay, step: Step, i: nat)
    requires Inv(env, r) && step.CallbackEnds? && i < |Apply(env, r, step).issued|
    ensures Entitled(env, Apply(env, r, step), Apply(env, r, step).issued[i])
  {
    if i < |r.issued| {
      assert Entitled(env, r, r.issued[i]);
    } else {
      var (s, flow) := r.waiting[step.handler];
      assert Started(r, s, flow);
      assert Finish(env, flow, Sub(flow.did), step.issuedAt).Ok?;
    }
  }

  lemma WaitingAfterEnd(env: Env, r: Relay, step: Step)
    requires WaitingOk(r) && step.CallbackEnds?
    ensures WaitingOk(Apply(env, r, step))
  {
    var r' := Apply(env, r, step);
    assert r'.started == r.started && r'.taken == r.taken;
    forall h | h in r'.waiting ensures h in r.waiting && r'.waiting[h] == r.waiting[h] {
    }
  }

  /** A waiting flow moves to the issued ones. */
  lemma ApartAfterMove(issued: seq<Issue>, waiting: map<nat, (State, Flow)>, h: nat, i: Issue)
    requires Apart(issued, waiting) && h in waiting && i.serial == waiting[h].1.serial
    requires forall g | g in waiting && g != h :: waiting[g].1.serial != i.serial
    ensures Apart(issued + [i], waiting - {h})
    ensures Apart(issued, waiting - {h})
  {
  }

  lemma IssuedAfterEnd(env: Env, r: Relay, step: Step)
    requires Inv(env, r) && step.CallbackEnds?
    ensures IssuedOk(env, Apply(env, r, step))
  {
    forall i: nat | i < |Apply(env, r, step).issued|
      ensures Entitled(env, Apply(env, r, step), Apply(env, r, step).issued[i])
    {
      EntitledAfterEnd(env, r, step, i);
    }
    var h := step.handler;
    if h in r.waiting {
      var (s, flow) := r.waiting[h];
      var signed := Finish(env, flow, step.reply, step.issuedAt);
      if signed.Ok? {
        ApartAfterMove(r.issued, r.waiting, h, Issue(s, flow.serial, flow.did, signed.value));
      }
    }
  }

  lemma InvAfterEnd(env: Env, r: Relay, step: Step)
    requires Inv(env, r) && step.CallbackEnds?
    ensures Inv(env, Apply(env, r, step))
  {
    ResultsAfterEnd(env, r, step);
    WaitingAfterEnd(env, r, step);
    IssuedAfterEnd(env, r, step);
  }

  lemma IssuedGrows(r: Relay, r': Relay, s: State)
    requires ResultsOk(r) && s in r'.cache.results
    requires r.issued <= r'.issued
    requires (s in r.cache.results && r'.cache.results[s] == r.cache.results[s])
          || (|r'.issued| > |r.issued| && r'.issued[|r.issued|].state == s
              && r'.issued[|r.issued|].signed == r'.cache.results[s].value)
    ensures IssuedUnder(r'.issued, s, r'.cache.results[s].value)
  {
  }

  lemma InvAfterRead(env: Env, r: Relay, step: Step)
    requires Inv(env, r) && step.ResultRead?
    ensures Inv(env, Apply(env, r, step))
  {
  }

  lemma InvAfterStep(env: Env, r: Relay, step: Step)
    requires Inv(env, r)
    ensures Inv(env, Apply(env, r, step))
  {
    match step
    case StartDone(_, _, _, _, _, _, _) => InvAfterStart(env, r, step);
    case CallbackTakes(_, _, _) => InvAfterTake(env, r, step);
    case CallbackEnds(_, _, _, _, _) => InvAfterEnd(env, r, step);
    case ResultRead(_, _) => InvAfterRead(env, r, step);
  }

  lemma {:induction false} RunInv(env: Env, steps: seq<Step>)
    ensures Inv(env, Run(env, steps))
  {
    if steps != [] {
      RunInv(env, steps[..|steps| - 1]);
      InvAfterStep(env, Run(env, steps[..|steps| - 1]), steps[|steps| - 1]);
    }
  }

  // ----- results -----

  /** Lists that grow by at most one element at a time, from the empty one. */
  predicate GrowByOne<T(==)>(lists: seq<seq<T>>) {
    && lists != [] && lists[0] == []
    && forall k | 0 <= k < |lists| - 1 :: lists[k] <= lists[k + 1] && |lists[k + 1]| <= |lists[k]| + 1
  }

  /** Where element `i` of the last list came in. */
  lemma {:induction false} CameIn<T>(lists: seq<seq<T>>, i: nat) returns (k: nat)
    requires GrowByOne(lists) && i < |lists[|lists| - 1]|
    ensures k + 1 < |lists| && |lists[k]| == i && |lists[k + 1]| == i + 1 && lists[k + 1][i] == lists[|lists| - 1][i]
  {
    k := |lists| - 2;
    if i < |lists[k]| {
      k := CameIn(lists[..|lists| - 1], i);
    }
  }

  /** The run's first `k` steps and the one after them. */
  lemma RunStep(env: Env, steps: seq<Step>, k: nat)
    requires k < |steps|
    ensures Run(env, steps[..k + 1]) == Apply(env, Run(env, steps[..k]), steps[k])
  {
    assert steps[..k + 1][..k] == steps[..k];
  }

  /** A step starts at most one flow. */
  lemma StartedOneByOne(env: Env, r: Relay, step: Step)
    ensures var started := Apply(env, r, step).started;
      && r.started <= started && |started| <= |r.started| + 1
      && (|started| == |r.started| + 1 ==>
            step.StartDone? && started[|r.started|] ==
              (step.state, Flow(|r.started|, HexOf(step.peer), step.handle, step.did, step.session)))
  {
  }

  /** The step that inserted flow `n`. */
  lemma StepThatStarted(env: Env, steps: seq<Step>, n: nat) returns (j: nat)
    requires n < |Run(env, steps).started|
    ensures j < |steps| && steps[j].StartDone? && |Run(env, steps[..j]).started| == n
    ensures Run(env, steps).started[n] ==
      (steps[j].state, Flow(n, HexOf(steps[j].peer), steps[j].handle, steps[j].did, steps[j].session))
  {
    var lists := seq(|steps| + 1, k requires 0 <= k <= |steps| => Run(env, steps[..k]).started);
    forall k | 0 <= k < |steps| ensures lists[k] <= lists[k + 1] && |lists[k + 1]| <= |lists[k]| + 1 {
      RunStep(env, steps, k);
      StartedOneByOne(env, Run(env, steps[..k]), steps[k]);
    }
    assert steps[..|steps|] == steps;
    j := CameIn(lists, n);
    RunStep(env, steps, j);
    StartedOneByOne(env, Run(env, steps[..j]), steps[j]);
  }

  /** The step with which a waiting callback took its flow; the flow was in the cache then. */
  lemma {:induction false} StepThatTook(env: Env, steps: seq<Step>, h: nat) returns (m: nat)
    requires h in Run(env, steps).waiting
    ensures m < |steps| && Takes(Run(env, steps[..m]), steps[m], h, Run(env, steps).waiting[h])
  {
    m := |steps| - 1;
    var r, front := Run(env, steps[..m]), steps[..m];
    WaitingOneByOne(env, r, steps[m], h);
    assert Run(env, steps) == Apply(env, r, steps[m]);
    if h in r.waiting {
      m := StepThatTook(env, front, h);
      assert front[..m] == steps[..m];
    }
  }

  /** The step makes this callback take this flow out of the cache. */
  predicate Takes(r: Relay, step: Step, h: nat, held: (State, Flow)) {
    && step.CallbackTakes? && step.handler == h && step.state == held.0
    && Taken(r.cache, step.state, step.now) == Some(held.1)
  }

  /** A callback that waits did so before and holds the same flow, or has just taken it. */
  lemma WaitingOneByOne(env: Env, r: Relay, step: Step, h: nat)
    requires h in Apply(env, r, step).waiting
    ensures var held := Apply(env, r, step).waiting[h];
      if h in r.waiting then held == r.waiting[h] else Takes(r, step, h, held)
  {
    if step.CallbackTakes? {
      TakenBy(r, step, h);
    }
  }

  lemma TakenBy(r: Relay, step: Step, h: nat)
    requires step.CallbackTakes? && h in TakeFor(r, step.handler, step.state, step.now).waiting
    ensures var held := TakeFor(r, step.handler, step.state, step.now).waiting[h];
      if h in r.waiting then held == r.waiting[h] else Takes(r, step, h, held)
  {
  }

  /** A step adds at most one result, and only at the end of a callback that signs it. */
  lemma IssuedOneByOne(env: Env, r: Relay, step: Step)
    ensures var issued := Apply(env, r, step).issued;
      && r.issued <= issued && |issued| <= |r.issued| + 1
      && (|issued| == |r.issued| + 1 ==> Adds(env, r, step, issued[|r.issued|]))
  {
  }

  /** The step that added result `i`: the end of a callback that held the flow. */
  lemma StepThatIssued(env: Env, steps: seq<Step>, i: nat) returns (k: nat)
    requires i < |Run(env, steps).issued|
    ensures k < |steps| && Adds(env, Run(env, steps[..k]), steps[k], Run(env, steps).issued[i])
  {
    var lists := seq(|steps| + 1, k requires 0 <= k <= |steps| => Run(env, steps[..k]).issued);
    forall k | 0 <= k < |steps| ensures lists[k] <= lists[k + 1] && |lists[k + 1]| <= |lists[k]| + 1 {
      RunStep(env, steps, k);
      IssuedOneByOne(env, Run(env, steps[..k]), steps[k]);
    }
    assert steps[..|steps|] == steps;
    k := CameIn(lists, i);
    RunStep(env, steps, k);
    IssuedOneByOne(env, Run(env, steps[..k]), steps[k]);
  }

  /** The step ends a callback that holds a flow and signs this result for it. */
  predicate Adds(env: Env, r: Relay, step: Step, i: Issue) {
    step.CallbackEnds? && step.handler in r.waiting && Produces(env, r.waiting[step.handler], step, i)
  }

  /** A callback that holds `held` and ends with `step` signs this result. */
  predicate Produces(env: Env, held: (State, Flow), step: Step, i: Issue)
    requires step.CallbackEnds?
  {
    && i.state == held.0 && i.serial == held.1.serial && step.reply == Sub(i.sub)
    && Finish(env, held.1, step.reply, step.issuedAt) == Ok(i.signed)
  }

  /** Steps `j` < `m` < `k` are one login under `state`: its start, its callback taking the flow, and
      the end of that callback after a token reply whose subject is the DID of the start. */
  predicate OneLogin(steps: seq<Step>, j: nat, m: nat, k: nat, state: State) {
    && j < m < k < |steps|
    && steps[j].StartDone? && steps[j].state == state
    && steps[m].CallbackTakes? && steps[m].state == state
    && steps[k].CallbackEnds? && steps[k].handler == steps[m].handler && steps[k].reply == Sub(steps[j].did)
  }

  /** A result produced for the flow of a start carries what the login was started for. */
  lemma ProducedFor(env: Env, start: Step, n: nat, held: (State, Flow), end: Step, i: Issue)
    requires start.StartDone? && end.CallbackEnds? && Produces(env, held, end, i) && held.0 == start.state
    requires held.1 == Flow(n, HexOf(start.peer), start.handle, start.did, start.session)
    ensures i.state == start.state && i.serial == n && i.sub == start.did && end.reply == Sub(start.did)
    ensures i.signed.claim == ClaimOf(start.peer, start.did, start.handle, end.issuedAt)
    ensures i.signed.signer == env.relayKey && env.sign(ClaimBytes(i.signed.claim)) == Some(i.signed.signature)
  {
    UnHexInvertsHexOf(start.peer);
  }

  /** The start of the flow that a waiting callback holds, and the step with which it took it. */
  lemma HeldSince(env: Env, steps: seq<Step>, h: nat) returns (j: nat, m: nat)
    requires h in Run(env, steps).waiting
    ensures j < m < |steps| && steps[j].StartDone? && steps[m].CallbackTakes? && steps[m].handler == h
    ensures var held := Run(env, steps).waiting[h];
      && held.0 == steps[j].state == steps[m].state
      && held.1 == Flow(|Run(env, steps[..j]).started|, HexOf(steps[j].peer), steps[j].handle, steps[j].did,
        steps[j].session)
  {
    m := StepThatTook(env, steps, h);
    j := FlowIsFromStart(env, steps[..m], steps[m].state, steps[m].now);
    assert steps[..m][..j] == steps[..j];
  }

  /** Each result was issued by one login of the run. */
  lemma {:induction false} LoginOf(env: Env, steps: seq<Step>, i: nat) returns (j: nat, m: nat, k: nat)
    requires i < |Run(env, steps).issued|
    ensures var issue := Run(env, steps).issued[i];
      && OneLogin(steps, j, m, k, issue.state) && issue.sub == steps[j].did
      && issue.serial == |Run(env, steps[..j]).started|
      && issue.signed.claim == ClaimOf(steps[j].peer, steps[j].did, steps[j].handle, steps[k].issuedAt)
      && issue.signed.signer == env.relayKey && env.sign(ClaimBytes(issue.signed.claim)) == Some(issue.signed.signature)
  {
    k := StepThatIssued(env, steps, i);
    j, m := HeldSince(env, steps[..k], steps[k].handler);
    assert steps[..k][..j] == steps[..j];
    var held := Run(env, steps[..k]).waiting[steps[k].handler];
    ProducedFor(env, steps[j], |Run(env, steps[..j]).started|, held, steps[k], Run(env, steps).issued[i]);
  }

  /** A flow that can be taken was inserted under that state by a step of the run. */
  lemma FlowIsFromStart(env: Env, steps: seq<Step>, s: State, now: nat) returns (j: nat)
    requires Taken(Run(env, steps).cache, s, now).Some?
    ensures j < |steps| && steps[j].StartDone? && steps[j].state == s
    ensures Taken(Run(env, steps).cache, s, now).value ==
      Flow(|Run(env, steps[..j]).started|, HexOf(steps[j].peer), steps[j].handle, steps[j].did, steps[j].session)
  {
    RunInv(env, steps);
    var flow := Taken(Run(env, steps).cache, s, now).value;
    assert Started(Run(env, steps), s, flow);
    j := StepThatStarted(env, steps, flow.serial);
  }

  /** However the handlers interleave: a result read under a state was signed in one login of the run
      under that very state, after a token reply whose subject is the DID the login was started for; it
      names that start's key, DID and "@"-handle. */
  lemma {:induction false} ResultHasProvenance(env: Env, steps: seq<Step>, state: State, now: nat)
    returns (j: nat, m: nat, k: nat)
    requires Got(Run(env, steps).cache, state, now).Some?
    ensures OneLogin(steps, j, m, k, state)
    ensures var r, b := Run(env, steps), Got(Run(env, steps).cache, state, now).value;
      && b.claim == ClaimOf(steps[j].peer, steps[j].did, steps[j].handle, steps[k].issuedAt)
      && b.signer == env.relayKey && env.sign(ClaimBytes(b.claim)) == Some(b.signature)
      && exists i | 0 <= i < |r.issued| :: r.issued[i] == Issue(state, |Run(env, steps[..j]).started|, steps[j].did, b)
  {
    RunInv(env, steps);
    var r, b := Run(env, steps), Got(Run(env, steps).cache, state, now).value;
    assert IssuedUnder(r.issued, state, b);
    var i: nat :| i < |r.issued| && r.issued[i].state == state && r.issued[i].signed == b;
    j, m, k := LoginOf(env, steps, i);
    assert r.issued[i] == Issue(state, |Run(env, steps[..j]).started|, steps[j].did, b);
  }

  /** No two results come from one flow, and a flow whose result was issued, or whose callback is
      still under way, can not be taken again. */
  lemma {:induction false} FlowsAreSpentOnce(env: Env, steps: seq<Step>)
    ensures var r := Run(env, steps);
      && (forall i, j | 0 <= i < j < |r.issued| :: r.issued[i].serial != r.issued[j].serial)
      && (forall n, s, now | n in r.taken && Taken(r.cache, s, now).Some? :: Taken(r.cache, s, now).value.serial != n)
      && (forall i | 0 <= i < |r.issued| :: r.issued[i].serial in r.taken)
  {
    RunInv(env, steps);
    var r := Run(env, steps);
    forall i | 0 <= i < |r.issued| ensures r.issued[i].serial in r.taken {
      assert Entitled(env, r, r.issued[i]);
    }
  }

  /** What the end of a waiting callback signs. */
  lemma SignsIff(env: Env, flow: Flow, reply: TokenReply, issuedAt: u64, peer: Key)
    requires flow.peerHex == HexOf(peer)
    ensures Finish(env, flow, reply, issuedAt).Ok? <==>
      reply == Sub(flow.did) && env.sign(ClaimBytes(ClaimOf(peer, flow.did, flow.handle, issuedAt))).Some?
  {
    UnHexInvertsHexOf(peer);
  }

  /** A waiting callback holds a flow that was started for a key, and that stays spent. */
  lemma HeldFlow(env: Env, steps: seq<Step>, h: nat) returns (peer: Key)
    requires h in Run(env, steps).waiting
    ensures var flow := Run(env, steps).waiting[h].1;
      flow.peerHex == HexOf(peer) && flow.serial in Run(env, steps).taken
  {
    RunInv(env, steps);
    var r := Run(env, steps);
    var flow := r.waiting[h].1;
    assert Started(r, r.waiting[h].0, flow);
    assert Numbered(r.started, flow.serial);
    peer :| r.started[flow.serial].1.peerHex == HexOf(peer);
  }

  lemma EndAddsIff(r: Relay, h: nat, signed: Result<SignedBinding, CallbackError>, reply: TokenReply, at: nat, now: nat)
    requires h in r.waiting && (signed.Ok? ==> reply.Sub?)
    ensures var r' := EndFor(r, h, signed, reply, at, now);
      && h !in r'.waiting && r'.taken == r.taken
      && (|r'.issued| == |r.issued| + 1 <==> signed.Ok?)
      && (signed.Err? ==> r'.issued == r.issued && r'.cache == r.cache)
  {
  }

  /** A callback's end adds a result exactly when the subject is the flow's DID and the signer signs:
      the key always decodes. Otherwise the cache is untouched and the flow stays spent. */
  lemma CallbackEndsExactly(env: Env, steps: seq<Step>, h: nat, reply: TokenReply, issuedAt: u64, at: nat, now: nat)
    returns (peer: Key)
    requires h in Run(env, steps).waiting
    ensures var r := Run(env, steps);
      var (r', flow) := (Apply(env, r, CallbackEnds(h, reply, issuedAt, at, now)), r.waiting[h].1);
      && flow.peerHex == HexOf(peer)
      && h !in r'.waiting && flow.serial in r'.taken
      && (|r'.issued| == |r.issued| + 1 <==>
            reply == Sub(flow.did) && env.sign(ClaimBytes(ClaimOf(peer, flow.did, flow.handle, issuedAt))).Some?)
      && (|r'.issued| != |r.issued| + 1 ==> r'.issued == r.issued && r'.cache == r.cache)
  {
    peer := HeldFlow(env, steps, h);
    var r := Run(env, steps);
    SignsIff(env, r.waiting[h].1, reply, issuedAt, peer);
    EndAddsIff(r, h, SignedFor(env, r, h, reply, issuedAt), reply, at, now);
  }

  /** With a correct signature scheme, the plugin that owns the flow's key accepts the result as its
      login. */
  lemma {:induction false} ResultIsAcceptedAtLogin(env: Env, platform: Platform.Platform, steps: seq<Step>,
    state: State, now: nat)
    requires Got(Run(env, steps).cache, state, now).Some?
    requires forall m | env.sign(m).Some? :: platform.verifySig(env.relayKey, m, env.sign(m).value)
    ensures var b := Got(Run(env, steps).cache, state, now).value;
      Identity.LoginAccepted(platform, b.claim.peer, b)
  {
    var j, m, k := ResultHasProvenance(env, steps, state, now);
  }
}
