/** A login that comes in time goes through: what was started can be taken, what was taken stays held, and
    what was signed can be read, each for its 600 seconds. */
module Logins {
  import opened Bytes
  import opened Utf8
  import opened Me
  import opened FlowCache
  import opened Oauth

  /** The cache before step `n`. */
  function CacheAt(env: Env, steps: seq<Step>, n: nat): Cache
    requires n <= |steps|
  {
    Oauth.Run(env, steps[..n]).cache
  }

  /** How many flows the steps start. */
  function Starts(steps: seq<Step>): nat {
    if steps == [] then 0 else Starts(steps[..|steps| - 1]) + if steps[|steps| - 1].StartDone? then 1 else 0
  }

  lemma {:induction false} StartsAreCounted(env: Env, steps: seq<Step>)
    ensures |Oauth.Run(env, steps).started| == Starts(steps)
  {
    if steps != [] {
      StartsAreCounted(env, steps[..|steps| - 1]);
    }
  }

  /** The flow that step `j` starts. */
  function FlowOf(steps: seq<Step>, j: nat): Flow
    requires j < |steps| && steps[j].StartDone?
  {
    Flow(Starts(steps[..j]), HexOf(steps[j].peer), steps[j].handle, steps[j].did, steps[j].session)
  }

  // ----- a started flow -----

  /** Another start, or a callback, under this state. */
  predicate TouchesFlow(step: Step, s: State) {
    (step.StartDone? || step.CallbackTakes?) && step.state == s
  }

  predicate Quiet(steps: seq<Step>, i: nat, j: nat, s: State, now: nat) {
    forall n | i < n < j && n < |steps| :: steps[n].now <= now && !TouchesFlow(steps[n], s)
  }

  /** The entry under `s` is this flow, or it has expired by `now`. */
  predicate FlowOrExpired(c: Cache, s: State, f: Flow, at: nat, now: nat) {
    if s in c.flows then c.flows[s] == Stored(f, at) else at + 600_000_000_000 <= now
  }

  lemma FlowPut(env: Env, r: Relay, step: Step, now: nat)
    requires step.StartDone?
    ensures var f := Flow(|r.started|, HexOf(step.peer), step.handle, step.did, step.session);
      FlowOrExpired(Apply(env, r, step).cache, step.state, f, step.at, now)
  {
  }

  lemma FlowStays(env: Env, r: Relay, step: Step, s: State, f: Flow, at: nat, now: nat)
    requires FlowOrExpired(r.cache, s, f, at, now) && step.now <= now && !TouchesFlow(step, s)
    ensures FlowOrExpired(Apply(env, r, step).cache, s, f, at, now)
  {
    if step.CallbackEnds? {
      FlowStaysAtEnd(r, step.handler, SignedFor(env, r, step.handler, step.reply, step.issuedAt), step, s, f, at, now);
    }
  }

  lemma FlowStaysAtEnd(r: Relay, h: nat, signed: Result<SignedBinding, CallbackError>, step: Step,
                       s: State, f: Flow, at: nat, now: nat)
    requires FlowOrExpired(r.cache, s, f, at, now) && step.CallbackEnds? && step.now <= now
    requires signed.Ok? ==> step.reply.Sub?
    ensures FlowOrExpired(EndFor(r, h, signed, step.reply, step.at, step.now).cache, s, f, at, now)
  {
  }

  lemma FlowPutAt(env: Env, steps: seq<Step>, j: nat, now: nat)
    requires j < |steps| && steps[j].StartDone?
    ensures FlowOrExpired(CacheAt(env, steps, j + 1), steps[j].state, FlowOf(steps, j), steps[j].at, now)
  {
    RunStep(env, steps, j);
    StartsAreCounted(env, steps[..j]);
    FlowPut(env, Oauth.Run(env, steps[..j]), steps[j], now);
  }

  lemma FlowStaysAt(env: Env, steps: seq<Step>, n: nat, s: State, f: Flow, at: nat, now: nat)
    requires n < |steps| && steps[n].now <= now && !TouchesFlow(steps[n], s)
    requires FlowOrExpired(CacheAt(env, steps, n), s, f, at, now)
    ensures FlowOrExpired(CacheAt(env, steps, n + 1), s, f, at, now)
  {
    RunStep(env, steps, n);
    FlowStays(env, Oauth.Run(env, steps[..n]), steps[n], s, f, at, now);
  }

  /** After the start, and at every step up to `e`. */
  lemma {:induction false} FlowWaits(env: Env, steps: seq<Step>, j: nat, e: nat, now: nat)
    requires j < e <= |steps| && steps[j].StartDone? && Quiet(steps, j, e, steps[j].state, now)
    ensures FlowOrExpired(CacheAt(env, steps, e), steps[j].state, FlowOf(steps, j), steps[j].at, now)
  {
    if e == j + 1 {
      FlowPutAt(env, steps, j, now);
    } else {
      FlowWaits(env, steps, j, e - 1, now);
      FlowStaysAt(env, steps, e - 1, steps[j].state, FlowOf(steps, j), steps[j].at, now);
    }
  }

  /** A start under `s` with no other start or callback there up to step `n`: an access made then, within
      600 seconds of the start's stamp, finds exactly what was started, a later one nothing. */
  lemma StartedFlowIsFound(env: Env, steps: seq<Step>, j: nat, n: nat, now: nat)
    requires j < n <= |steps| && steps[j].StartDone? && Quiet(steps, j, n, steps[j].state, now)
    ensures Taken(CacheAt(env, steps, n), steps[j].state, now) ==
      if now < steps[j].at + 600_000_000_000 then Some(FlowOf(steps, j)) else None
  {
    FlowWaits(env, steps, j, n, now);
  }

  // ----- a callback -----

  predicate Holding(r: Relay, h: nat, held: (State, Flow)) {
    h in r.waiting && r.waiting[h] == held
  }

  /** Nobody finds a flow under `s`, whatever the time. */
  ghost predicate Spent(c: Cache, s: State) {
    forall t: nat :: Taken(c, s, t).None?
  }

  lemma TakesWhatIsThere(r: Relay, h: nat, s: State, f: Flow, now: nat)
    requires Taken(r.cache, s, now) == Some(f) && h !in r.waiting
    ensures Holding(TakeFor(r, h, s, now), h, (s, f))
    ensures Spent(TakeFor(r, h, s, now).cache, s)
  {
  }

  /** A free callback that comes in time takes exactly that flow, and nobody finds it afterwards. */
  lemma CallbackTakesTheFlow(env: Env, steps: seq<Step>, j: nat, m: nat)
    requires j < m < |steps| && steps[j].StartDone? && steps[m].CallbackTakes? && steps[m].state == steps[j].state
    requires Quiet(steps, j, m, steps[j].state, steps[m].now) && steps[m].now < steps[j].at + 600_000_000_000
    requires steps[m].handler !in Oauth.Run(env, steps[..m]).waiting
    ensures Holding(Oauth.Run(env, steps[..m + 1]), steps[m].handler, (steps[j].state, FlowOf(steps, j)))
    ensures Spent(CacheAt(env, steps, m + 1), steps[j].state)
  {
    StartedFlowIsFound(env, steps, j, m, steps[m].now);
    RunStep(env, steps, m);
    TakesWhatIsThere(Oauth.Run(env, steps[..m]), steps[m].handler, steps[j].state, FlowOf(steps, j), steps[m].now);
  }

  lemma HeldStays(env: Env, r: Relay, step: Step, h: nat)
    requires h in r.waiting && !(step.CallbackEnds? && step.handler == h)
    ensures Holding(Apply(env, r, step), h, r.waiting[h])
  {
  }

  /** It holds the flow until its own end. */
  lemma {:induction false} CallbackHoldsTheFlow(env: Env, steps: seq<Step>, m: nat, e: nat, h: nat, held: (State, Flow))
    requires m <= e <= |steps| && Holding(Oauth.Run(env, steps[..m]), h, held)
    requires forall n | m <= n < e :: !(steps[n].CallbackEnds? && steps[n].handler == h)
    ensures Holding(Oauth.Run(env, steps[..e]), h, held)
  {
    if m < e {
      CallbackHoldsTheFlow(env, steps, m, e - 1, h, held);
      RunStep(env, steps, e - 1);
      HeldStays(env, Oauth.Run(env, steps[..e - 1]), steps[e - 1], h);
    }
  }

  // ----- a result -----

  /** The step ends a callback that holds a flow taken under this state, and this is signed for it. */
  predicate Signs(env: Env, r: Relay, step: Step, s: State, b: SignedBinding) {
    && step.CallbackEnds? && step.handler in r.waiting && r.waiting[step.handler].0 == s
    && Finish(env, r.waiting[step.handler].1, step.reply, step.issuedAt) == Ok(b)
  }

  ghost predicate SignsUnder(env: Env, r: Relay, step: Step, s: State) {
    exists b :: Signs(env, r, step, s, b)
  }

  predicate ResultOrExpired(c: Cache, s: State, b: SignedBinding, at: nat, now: nat) {
    if s in c.results then c.results[s] == Stored(b, at) else at + 600_000_000_000 <= now
  }

  lemma ResultStays(env: Env, r: Relay, step: Step, s: State, b: SignedBinding, at: nat, now: nat)
    requires ResultOrExpired(r.cache, s, b, at, now) && step.now <= now && !SignsUnder(env, r, step, s)
    ensures ResultOrExpired(Apply(env, r, step).cache, s, b, at, now)
  {
    if step.CallbackEnds? && step.handler in r.waiting {
      var signed := Finish(env, r.waiting[step.handler].1, step.reply, step.issuedAt);
      if r.waiting[step.handler].0 == s {
        NothingSigned(env, r, step, s);
      }
      ResultStaysAtEnd(r, step.handler, signed, step, s, b, at, now);
    }
  }

  lemma NothingSigned(env: Env, r: Relay, step: Step, s: State)
    requires !SignsUnder(env, r, step, s) && step.CallbackEnds? && step.handler in r.waiting
    requires r.waiting[step.handler].0 == s
    ensures Finish(env, r.waiting[step.handler].1, step.reply, step.issuedAt).Err?
  {
    match Finish(env, r.waiting[step.handler].1, step.reply, step.issuedAt)
    case Ok(b) => assert Signs(env, r, step, s, b);
    case Err(_) =>
  }

  lemma ResultStaysAtEnd(r: Relay, h: nat, signed: Result<SignedBinding, CallbackError>, step: Step,
                         s: State, b: SignedBinding, at: nat, now: nat)
    requires ResultOrExpired(r.cache, s, b, at, now) && step.CallbackEnds? && step.now <= now
    requires h in r.waiting && (r.waiting[h].0 == s ==> signed.Err?) && (signed.Ok? ==> step.reply.Sub?)
    ensures ResultOrExpired(EndFor(r, h, signed, step.reply, step.at, step.now).cache, s, b, at, now)
  {
  }

  lemma ResultPutAtEnd(r: Relay, h: nat, s: State, f: Flow, b: SignedBinding, reply: TokenReply,
                       at: nat, from: nat, now: nat)
    requires Holding(r, h, (s, f)) && reply.Sub?
    ensures ResultOrExpired(EndFor(r, h, Ok(b), reply, at, from).cache, s, b, at, now)
  {
  }

  lemma ResultPut(env: Env, r: Relay, step: Step, s: State, b: SignedBinding, now: nat)
    requires Signs(env, r, step, s, b)
    ensures ResultOrExpired(Apply(env, r, step).cache, s, b, step.at, now)
  {
    ResultPutAtEnd(r, step.handler, s, r.waiting[step.handler].1, b, step.reply, step.at, step.now, now);
  }

  /** No later access than `now`, and no other result under `s`, since step `k`. */
  ghost predicate Undisturbed(env: Env, steps: seq<Step>, k: nat, s: State, now: nat) {
    forall n | k < n < |steps| :: Untouched(env, steps, n, s, now)
  }

  ghost predicate Untouched(env: Env, steps: seq<Step>, n: nat, s: State, now: nat)
    requires n < |steps|
  {
    steps[n].now <= now && !SignsUnder(env, Oauth.Run(env, steps[..n]), steps[n], s)
  }

  lemma ResultPutAt(env: Env, steps: seq<Step>, k: nat, s: State, b: SignedBinding, now: nat)
    requires k < |steps| && Signs(env, Oauth.Run(env, steps[..k]), steps[k], s, b)
    ensures ResultOrExpired(CacheAt(env, steps, k + 1), s, b, steps[k].at, now)
  {
    RunStep(env, steps, k);
    ResultPut(env, Oauth.Run(env, steps[..k]), steps[k], s, b, now);
  }

  lemma ResultStaysAt(env: Env, steps: seq<Step>, n: nat, s: State, b: SignedBinding, at: nat, now: nat)
    requires n < |steps| && Untouched(env, steps, n, s, now)
    requires ResultOrExpired(CacheAt(env, steps, n), s, b, at, now)
    ensures ResultOrExpired(CacheAt(env, steps, n + 1), s, b, at, now)
  {
    RunStep(env, steps, n);
    ResultStays(env, Oauth.Run(env, steps[..n]), steps[n], s, b, at, now);
  }

  lemma {:induction false} ResultWaits(env: Env, steps: seq<Step>, k: nat, e: nat, s: State, b: SignedBinding, now: nat)
    requires k < e <= |steps| && Signs(env, Oauth.Run(env, steps[..k]), steps[k], s, b)
    requires forall n | k < n < e :: Untouched(env, steps, n, s, now)
    ensures ResultOrExpired(CacheAt(env, steps, e), s, b, steps[k].at, now)
  {
    if e == k + 1 {
      ResultPutAt(env, steps, k, s, b, now);
    } else {
      ResultWaits(env, steps, k, e - 1, s, b, now);
      ResultStaysAt(env, steps, e - 1, s, b, steps[k].at, now);
    }
  }

  lemma ReadOf(c: Cache, s: State, b: SignedBinding, at: nat, now: nat)
    requires ResultOrExpired(c, s, b, at, now)
    ensures Got(c, s, now) == if now < at + 600_000_000_000 then Some(b) else None
  {
  }

  /** Everything a signed binding says, field by field. */
  ghost predicate Says(env: Env, b: SignedBinding, peer: Key, did: Octets, handle: Octets, issuedAt: u64) {
    && b.claim.peer == peer && b.claim.provider == Ascii("atproto") && b.claim.canonicalId == did
    && b.claim.handle.Some? && b.claim.handle.value == [64] + handle && b.claim.issuedAt == issuedAt
    && b.signer == env.relayKey && env.sign(ClaimBytes(b.claim)) == Some(b.signature)
  }

  /** What is signed for a flow of this key, when its DID is the subject and the signer signs. */
  lemma SignedSays(env: Env, f: Flow, reply: TokenReply, issuedAt: u64, peer: Key) returns (b: SignedBinding)
    requires f.peerHex == HexOf(peer) && reply == Sub(f.did)
    requires env.sign(ClaimBytes(ClaimOf(peer, f.did, f.handle, issuedAt))).Some?
    ensures Finish(env, f, reply, issuedAt) == Ok(b) && Says(env, b, peer, f.did, f.handle, issuedAt)
  {
    SignsIff(env, f, reply, issuedAt, peer);
    UnHexInvertsHexOf(peer);
    b := Finish(env, f, reply, issuedAt).value;
  }

  /** The end of a callback that holds a flow of this key, with the flow's DID as the subject and a signer
      that signs: every read under its state within 600 seconds of the stamp answers a binding that says
      just what the flow was started with, signed by the relay, until the next result there. A later read
      answers nothing. */
  lemma SignedResultIsRead(env: Env, steps: seq<Step>, k: nat, s: State, f: Flow, peer: Key, now: nat)
    requires k < |steps| && steps[k].CallbackEnds? && Holding(Oauth.Run(env, steps[..k]), steps[k].handler, (s, f))
    requires f.peerHex == HexOf(peer) && steps[k].reply == Sub(f.did)
    requires env.sign(ClaimBytes(ClaimOf(peer, f.did, f.handle, steps[k].issuedAt))).Some?
    requires Undisturbed(env, steps, k, s, now)
    ensures var read := Got(Oauth.Run(env, steps).cache, s, now);
      if now < steps[k].at + 600_000_000_000
      then read.Some? && Says(env, read.value, peer, f.did, f.handle, steps[k].issuedAt)
      else read.None?
  {
    var b := SignedSays(env, f, steps[k].reply, steps[k].issuedAt, peer);
    ResultWaits(env, steps, k, |steps|, s, b, now);
    assert steps[..|steps|] == steps;
    ReadOf(Oauth.Run(env, steps).cache, s, b, steps[k].at, now);
  }

  // ----- a whole login -----

  /** Steps `j`, `m` and `k` start a login, take its flow in time by a free callback, and end that callback
      with the subject that was started; nothing else touches its state in between. */
  predicate LoginSteps(env: Env, steps: seq<Step>, j: nat, m: nat, k: nat) {
    && j < m < k < |steps|
    && steps[j].StartDone? && steps[m].CallbackTakes? && steps[m].state == steps[j].state
    && Quiet(steps, j, m, steps[j].state, steps[m].now) && steps[m].now < steps[j].at + 600_000_000_000
    && steps[m].handler !in Oauth.Run(env, steps[..m]).waiting
    && (forall n | m < n < k :: !(steps[n].CallbackEnds? && steps[n].handler == steps[m].handler))
    && steps[k].CallbackEnds? && steps[k].handler == steps[m].handler && steps[k].reply == Sub(steps[j].did)
  }

  lemma LoginIsHeld(env: Env, steps: seq<Step>, j: nat, m: nat, k: nat)
    requires LoginSteps(env, steps, j, m, k)
    ensures Holding(Oauth.Run(env, steps[..k]), steps[k].handler, (steps[j].state, FlowOf(steps, j)))
  {
    var held := (steps[j].state, FlowOf(steps, j));
    CallbackTakesTheFlow(env, steps, j, m);
    CallbackHoldsTheFlow(env, steps, m + 1, k, steps[m].handler, held);
  }

  /** Such a login completes: its result can be read for 600 seconds, and says what was started. */
  lemma LoginCompletes(env: Env, steps: seq<Step>, j: nat, m: nat, k: nat, now: nat)
    requires LoginSteps(env, steps, j, m, k)
    requires env.sign(ClaimBytes(ClaimOf(steps[j].peer, steps[j].did, steps[j].handle, steps[k].issuedAt))).Some?
    requires Undisturbed(env, steps, k, steps[j].state, now) && now < steps[k].at + 600_000_000_000
    ensures var read := Got(Oauth.Run(env, steps).cache, steps[j].state, now);
      read.Some? && Says(env, read.value, steps[j].peer, steps[j].did, steps[j].handle, steps[k].issuedAt)
  {
    LoginIsHeld(env, steps, j, m, k);
    SignedResultIsRead(env, steps, k, steps[j].state, FlowOf(steps, j), steps[j].peer, now);
  }
}
