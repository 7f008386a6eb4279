/** Runs of the topic registry: who gets which broadcast, and what pruning can change. */
module Fanout {
  import opened Bytes
  import opened Ring

  type Topic = string

  /** `ops` is everything that happened to the sink's ring; `since` and `until` are the lengths of
      the topic's log when the sink was subscribed and released. */
  datatype SinkRec = SinkRec(topic: Topic, cap: nat, live: bool, ops: seq<RingOp>, since: nat, until: nat)

  datatype Reg = Reg(entries: map<Topic, seq<nat>>, sinks: seq<SinkRec>, logs: map<Topic, seq<Octets>>) {
    function IdsOn(t: Topic): seq<nat> {
      if t in entries then entries[t] else []
    }

    /** Everything broadcast on the topic, in one order. */
    function LogOn(t: Topic): seq<Octets> {
      if t in logs then logs[t] else []
    }

    /** `subscriber_count` */
    function Count(t: Topic): nat {
      |LiveIds(sinks, IdsOn(t))|
    }
  }

  predicate LiveAt(sinks: seq<SinkRec>, id: nat) {
    id < |sinks| && sinks[id].live
  }

  function LiveIds(sinks: seq<SinkRec>, ids: seq<nat>): (r: seq<nat>)
    ensures forall i :: i in r <==> i in ids && LiveAt(sinks, i)
    ensures Distinct(ids) ==> Distinct(r)
  {
    if ids == [] then [] else (if LiveAt(sinks, ids[0]) then [ids[0]] else []) + LiveIds(sinks, ids[1..])
  }

  predicate Distinct(ids: seq<nat>) {
    forall i, j | 0 <= i < j < |ids| :: ids[i] != ids[j]
  }

  function AddOp(sinks: seq<SinkRec>, id: nat, op: RingOp): (r: seq<SinkRec>)
    ensures |r| == |sinks|
  {
    if LiveAt(sinks, id) then sinks[id := sinks[id].(ops := sinks[id].ops + [op])] else sinks
  }

  /** The `retain` loop: walk the list, push to each live sink. */
  function PushEach(sinks: seq<SinkRec>, ids: seq<nat>, frame: Octets): (r: seq<SinkRec>)
    ensures |r| == |sinks|
    decreases |ids|
  {
    if ids == [] then sinks else PushEach(AddOp(sinks, ids[0], Push(frame)), ids[1..], frame)
  }

  datatype RegOp =
    | Subscribe(topic: Topic, cap: nat)
    | Broadcast(topic: Topic, frame: Octets)
    | Read(id: nat)
    | Release(id: nat)

  function Step(r: Reg, op: RegOp, prune: bool): Reg {
    match op
    case Subscribe(t, cap) =>
      r.(sinks := r.sinks + [SinkRec(t, cap, true, [], |r.LogOn(t)|, 0)],
         entries := r.entries[t := r.IdsOn(t) + [|r.sinks|]])
    case Broadcast(t, f) =>
      Reg(if prune && t in r.entries then r.entries[t := LiveIds(r.sinks, r.entries[t])] else r.entries,
          PushEach(r.sinks, r.IdsOn(t), f),
          r.logs[t := r.LogOn(t) + [f]])
    case Read(id) => r.(sinks := AddOp(r.sinks, id, Pop))
    case Release(id) =>
      if LiveAt(r.sinks, id)
      then r.(sinks := r.sinks[id := r.sinks[id].(live := false, until := |r.LogOn(r.sinks[id].topic)|)])
      else r
  }

  function Run(ops: seq<RegOp>, prune: bool): Reg {
    if ops == [] then Reg(map[], [], map[]) else Step(Run(ops[..|ops| - 1], prune), ops[|ops| - 1], prune)
  }

  // ----- one total order -----

  lemma {:induction false} PushEachReaches(sinks: seq<SinkRec>, ids: seq<nat>, frame: Octets, i: nat)
    requires Distinct(ids) && i < |sinks|
    ensures PushEach(sinks, ids, frame)[i] ==
            if i in ids && sinks[i].live then sinks[i].(ops := sinks[i].ops + [Push(frame)]) else sinks[i]
    decreases |ids|
  {
    if ids != [] {
      PushEachReaches(AddOp(sinks, ids[0], Push(frame)), ids[1..], frame, i);
      assert ids == [ids[0]] + ids[1..];
      assert ids[0] !in ids[1..];
    }
  }

  /** The topic's list names distinct sinks of this topic. */
  predicate ListOk(r: Reg, t: Topic) {
    Distinct(r.IdsOn(t)) && forall i | i in r.IdsOn(t) :: i < |r.sinks| && r.sinks[i].topic == t
  }

  /** The sink is listed while it lives, and was pushed its slice of the log. */
  predicate SinkOk(r: Reg, i: nat)
    requires i < |r.sinks|
  {
    var s := r.sinks[i];
    var log := r.LogOn(s.topic);
    if s.live then i in r.IdsOn(s.topic) && s.since <= |log| && Frames(s.ops) == log[s.since..]
    else s.since <= s.until <= |log| && Frames(s.ops) == log[s.since..s.until]
  }

  ghost predicate Inv(r: Reg) {
    (forall t :: ListOk(r, t)) && (forall i: nat | i < |r.sinks| :: SinkOk(r, i))
  }

  lemma InvAfterSubscribe(r: Reg, t: Topic, cap: nat, prune: bool)
    requires Inv(r)
    ensures Inv(Step(r, Subscribe(t, cap), prune))
  {
    var r' := Step(r, Subscribe(t, cap), prune);
    forall u ensures ListOk(r', u) {
      assert ListOk(r, u);
      assert |r.sinks| !in r.IdsOn(u);
      assert forall k | 0 <= k < |r.IdsOn(u)| :: r.IdsOn(u)[k] in r.IdsOn(u);
    }
    forall i: nat | i < |r'.sinks| ensures SinkOk(r', i) {
      assert i < |r.sinks| ==> SinkOk(r, i);
    }
  }

  lemma InvAfterBroadcast(r: Reg, t: Topic, f: Octets, prune: bool)
    requires Inv(r)
    ensures Inv(Step(r, Broadcast(t, f), prune))
  {
    var r' := Step(r, Broadcast(t, f), prune);
    forall i: nat | i < |r.sinks| ensures SinkOk(r', i) {
      SinkAfterBroadcast(r, t, f, prune, i);
    }
    forall u ensures ListOk(r', u) {
      ListAfterBroadcast(r, t, f, prune, u);
    }
  }

  /** Other topics' sinks, and released ones, keep their history and their slice of the log. */
  lemma OtherSinkAfterBroadcast(r: Reg, t: Topic, f: Octets, prune: bool, i: nat)
    requires ListOk(r, t) && i < |r.sinks| && SinkOk(r, i)
    requires r.sinks[i].topic != t || !r.sinks[i].live
    ensures Step(r, Broadcast(t, f), prune).sinks[i] == r.sinks[i] && SinkOk(Step(r, Broadcast(t, f), prune), i)
  {
    var s, log := r.sinks[i], r.LogOn(t);
    PushEachReaches(r.sinks, r.IdsOn(t), f, i);
    if s.topic == t {
      assert (log + [f])[s.since..s.until] == log[s.since..s.until];
    }
  }

  lemma LiveSinkAfterBroadcast(r: Reg, t: Topic, f: Octets, prune: bool, i: nat)
    requires ListOk(r, t) && i < |r.sinks| && SinkOk(r, i)
    requires r.sinks[i].topic == t && r.sinks[i].live
    ensures SinkOk(Step(r, Broadcast(t, f), prune), i)
  {
    var r', s, log := Step(r, Broadcast(t, f), prune), r.sinks[i], r.LogOn(t);
    PushEachReaches(r.sinks, r.IdsOn(t), f, i);
    assert r'.sinks[i] == s.(ops := s.ops + [Push(f)]) && r'.LogOn(t) == log + [f];
    FramesSnoc(s.ops, Push(f));
    assert (log + [f])[s.since..] == log[s.since..] + [f];
    assert i in r'.IdsOn(t);
  }

  lemma SinkAfterBroadcast(r: Reg, t: Topic, f: Octets, prune: bool, i: nat)
    requires ListOk(r, t) && i < |r.sinks| && SinkOk(r, i)
    ensures SinkOk(Step(r, Broadcast(t, f), prune), i)
  {
    if r.sinks[i].topic == t && r.sinks[i].live {
      LiveSinkAfterBroadcast(r, t, f, prune, i);
    } else {
      OtherSinkAfterBroadcast(r, t, f, prune, i);
    }
  }

  lemma ListAfterBroadcast(r: Reg, t: Topic, f: Octets, prune: bool, u: Topic)
    requires ListOk(r, t) && ListOk(r, u)
    ensures ListOk(Step(r, Broadcast(t, f), prune), u)
  {
    forall i: nat | i < |r.sinks| ensures PushEach(r.sinks, r.IdsOn(t), f)[i].topic == r.sinks[i].topic {
      PushEachReaches(r.sinks, r.IdsOn(t), f, i);
    }
  }

  lemma InvAfterRead(r: Reg, id: nat, prune: bool)
    requires Inv(r)
    ensures Inv(Step(r, Read(id), prune))
  {
    var r' := Step(r, Read(id), prune);
    forall u ensures ListOk(r', u) {
      assert ListOk(r, u);
    }
    forall i: nat | i < |r'.sinks| ensures SinkOk(r', i) {
      SinkAfterRead(r, id, prune, i);
    }
  }

  lemma SinkAfterRead(r: Reg, id: nat, prune: bool, i: nat)
    requires i < |r.sinks| && SinkOk(r, i)
    ensures SinkOk(Step(r, Read(id), prune), i)
  {
    if i == id && r.sinks[i].live {
      FramesSnoc(r.sinks[i].ops, Pop);
      assert Frames(r.sinks[i].ops) + [] == Frames(r.sinks[i].ops);
    } else {
      assert Step(r, Read(id), prune).sinks[i] == r.sinks[i];
    }
  }

  lemma InvAfterRelease(r: Reg, id: nat, prune: bool)
    requires Inv(r)
    ensures Inv(Step(r, Release(id), prune))
  {
    var r' := Step(r, Release(id), prune);
    forall u ensures ListOk(r', u) {
      assert ListOk(r, u);
    }
    forall i: nat | i < |r'.sinks| ensures SinkOk(r', i) {
      assert SinkOk(r, i);
    }
  }

  lemma {:induction false} RunInv(ops: seq<RegOp>, prune: bool)
    ensures Inv(Run(ops, prune))
  {
    if ops != [] {
      var r := Run(ops[..|ops| - 1], prune);
      RunInv(ops[..|ops| - 1], prune);
      match ops[|ops| - 1]
      case Subscribe(t, cap) => InvAfterSubscribe(r, t, cap, prune);
      case Broadcast(t, f) => InvAfterBroadcast(r, t, f, prune);
      case Read(id) => InvAfterRead(r, id, prune);
      case Release(id) => InvAfterRelease(r, id, prune);
    }
  }

  /** The part of its topic's log that a sink was there for. */
  function Heard(r: Reg, s: SinkRec): seq<Octets>
    requires s.since <= End(r, s) <= |r.LogOn(s.topic)|
  {
    r.LogOn(s.topic)[s.since..End(r, s)]
  }

  function End(r: Reg, s: SinkRec): nat {
    if s.live then |r.LogOn(s.topic)| else s.until
  }

  /** Over any run, a sink was pushed exactly its topic's log from its subscription to its release
      (or to now): each broadcast once, in one order, none from other topics. */
  lemma PushedIsTheLog(ops: seq<RegOp>, prune: bool, id: nat)
    requires id < |Run(ops, prune).sinks|
    ensures var r, s := Run(ops, prune), Run(ops, prune).sinks[id];
      s.since <= End(r, s) <= |r.LogOn(s.topic)| && Frames(s.ops) == Heard(r, s)
  {
    RunInv(ops, prune);
    assert SinkOk(Run(ops, prune), id);
  }

  /** And what its reader got is a subsequence of that log, in the log's order. */
  lemma OneTotalOrder(ops: seq<RegOp>, prune: bool, id: nat)
    requires id < |Run(ops, prune).sinks|
    ensures var r, s := Run(ops, prune), Run(ops, prune).sinks[id];
      var out, taken := RunSink(s.cap, s.ops).out, Taken(s.cap, s.ops);
      && s.since <= End(r, s) <= |r.LogOn(s.topic)|
      && |out| == |taken| && Ascending(taken, |Heard(r, s)|)
      && forall k | 0 <= k < |out| :: out[k] == Heard(r, s)[taken[k]]
  {
    PushedIsTheLog(ops, prune, id);
    var s := Run(ops, prune).sinks[id];
    RingIsExact(s.cap, s.ops);
  }

  // ----- each subscriber by itself -----

  /** What was broadcast on a topic, from the operations alone. */
  function BroadcastsOn(ops: seq<RegOp>, t: Topic): seq<Octets> {
    if ops == [] then []
    else
      BroadcastsOn(ops[..|ops| - 1], t) +
      match ops[|ops| - 1]
      case Broadcast(u, frame) => if u == t then [frame] else []
      case _ => []
  }

  lemma {:induction false} LogIsBroadcasts(ops: seq<RegOp>, prune: bool, t: Topic)
    ensures Run(ops, prune).LogOn(t) == BroadcastsOn(ops, t)
  {
    if ops != [] {
      LogIsBroadcasts(ops[..|ops| - 1], prune, t);
    }
  }

  function Subscriptions(ops: seq<RegOp>): nat {
    if ops == [] then 0 else Subscriptions(ops[..|ops| - 1]) + if ops[|ops| - 1].Subscribe? then 1 else 0
  }

  datatype Listener = Listener(topic: Topic, cap: nat, live: bool, ops: seq<RingOp>)

  /** Subscriber number `id`, had it been alone, without any list: it hears all of its topic while it lives. */
  function Alone(ops: seq<RegOp>, id: nat): Option<Listener> {
    if ops == [] then None
    else
      var front := ops[..|ops| - 1];
      match (ops[|ops| - 1], Alone(front, id))
      case (Subscribe(t, cap), None) => if Subscriptions(front) == id then Some(Listener(t, cap, true, [])) else None
      case (_, None) => None
      case (Broadcast(t, f), Some(l)) =>
        Some(if l.live && l.topic == t then l.(ops := l.ops + [Push(f)]) else l)
      case (Read(i), Some(l)) => Some(if l.live && i == id then l.(ops := l.ops + [Pop]) else l)
      case (Release(i), Some(l)) => Some(if i == id then l.(live := false) else l)
      case (_, Some(l)) => Some(l)
  }

  /** Sink `id`, if there is one, is this listener. */
  predicate IsAlone(sinks: seq<SinkRec>, id: nat, l: Option<Listener>) {
    if id < |sinks| then l == Some(Listener(sinks[id].topic, sinks[id].cap, sinks[id].live, sinks[id].ops))
    else l == None
  }

  lemma AloneAfterBroadcast(r: Reg, t: Topic, f: Octets, prune: bool, id: nat)
    requires Inv(r) && id < |r.sinks|
    ensures var s, s' := r.sinks[id], Step(r, Broadcast(t, f), prune).sinks[id];
      s' == if s.live && s.topic == t then s.(ops := s.ops + [Push(f)]) else s
  {
    assert ListOk(r, t) && SinkOk(r, id);
    PushEachReaches(r.sinks, r.IdsOn(t), f, id);
  }

  /** Lists, order and pruning come to this: every subscriber has just the history it would have alone. */
  lemma {:induction false} SinksAreAlone(ops: seq<RegOp>, prune: bool, id: nat)
    ensures |Run(ops, prune).sinks| == Subscriptions(ops)
    ensures IsAlone(Run(ops, prune).sinks, id, Alone(ops, id))
  {
    if ops != [] {
      var front := ops[..|ops| - 1];
      SinksAreAlone(front, prune, id);
      RunInv(front, prune);
      match ops[|ops| - 1]
      case Broadcast(t, f) =>
        if id < |Run(front, prune).sinks| {
          AloneAfterBroadcast(Run(front, prune), t, f, prune, id);
        }
      case _ =>
    }
  }

  // ----- pruning is unobservable -----

  lemma {:induction false} LiveTwice(sinks: seq<SinkRec>, sinks': seq<SinkRec>, ids: seq<nat>)
    requires forall i | LiveAt(sinks', i) && i in ids :: LiveAt(sinks, i)
    ensures LiveIds(sinks', LiveIds(sinks, ids)) == LiveIds(sinks', ids)
  {
    if ids != [] {
      LiveTwice(sinks, sinks', ids[1..]);
      var rest := LiveIds(sinks, ids[1..]);
      if LiveAt(sinks, ids[0]) {
        assert ([ids[0]] + rest)[1..] == rest;
      } else {
        assert [] + rest == rest;
      }
    }
  }

  lemma {:induction false} PushKeepsLive(sinks: seq<SinkRec>, ids: seq<nat>, frame: Octets)
    ensures forall i :: LiveAt(PushEach(sinks, ids, frame), i) <==> LiveAt(sinks, i)
    decreases |ids|
  {
    if ids != [] {
      PushKeepsLive(AddOp(sinks, ids[0], Push(frame)), ids[1..], frame);
    }
  }

  lemma {:induction false} PushEachLive(sinks: seq<SinkRec>, ids: seq<nat>, frame: Octets)
    ensures PushEach(sinks, ids, frame) == PushEach(sinks, LiveIds(sinks, ids), frame)
    ensures forall i :: LiveAt(PushEach(sinks, ids, frame), i) <==> LiveAt(sinks, i)
    decreases |ids|
  {
    PushKeepsLive(sinks, ids, frame);
    if ids != [] {
      var sinks' := AddOp(sinks, ids[0], Push(frame));
      PushEachLive(sinks', ids[1..], frame);
      SameLive(sinks, sinks', ids[1..]);
      var rest := LiveIds(sinks, ids[1..]);
      if LiveAt(sinks, ids[0]) {
        assert ([ids[0]] + rest)[1..] == rest;
      } else {
        assert [] + rest == rest;
      }
    }
  }

  lemma {:induction false} SameLive(sinks: seq<SinkRec>, sinks': seq<SinkRec>, ids: seq<nat>)
    requires forall i | i in ids :: LiveAt(sinks, i) <==> LiveAt(sinks', i)
    ensures LiveIds(sinks, ids) == LiveIds(sinks', ids)
  {
    if ids != [] {
      SameLive(sinks, sinks', ids[1..]);
    }
  }

  /** Same sinks, same logs, same live lists. */
  ghost predicate Alike(a: Reg, b: Reg) {
    && a.sinks == b.sinks && a.logs == b.logs
    && forall t :: LiveIds(a.sinks, a.IdsOn(t)) == LiveIds(b.sinks, b.IdsOn(t))
  }

  lemma {:induction false} LiveIdsConcat(sinks: seq<SinkRec>, a: seq<nat>, b: seq<nat>)
    ensures LiveIds(sinks, a + b) == LiveIds(sinks, a) + LiveIds(sinks, b)
  {
    if a == [] {
      assert a + b == b;
    } else {
      assert (a + b)[1..] == a[1..] + b;
      LiveIdsConcat(sinks, a[1..], b);
    }
  }

  /** A change of sinks that revives nobody keeps two registries alike, list by list. */
  lemma LiveListsFollow(a: Reg, b: Reg, sinks': seq<SinkRec>, t: Topic)
    requires Alike(a, b)
    requires forall i | LiveAt(sinks', i) :: LiveAt(a.sinks, i)
    ensures LiveIds(sinks', a.IdsOn(t)) == LiveIds(sinks', b.IdsOn(t))
  {
    LiveTwice(a.sinks, sinks', a.IdsOn(t));
    LiveTwice(a.sinks, sinks', b.IdsOn(t));
  }

  lemma AlikeAfterBroadcast(a: Reg, b: Reg, t: Topic, f: Octets)
    requires Alike(a, b)
    ensures Alike(Step(a, Broadcast(t, f), true), Step(b, Broadcast(t, f), false))
  {
    PushEachLive(a.sinks, a.IdsOn(t), f);
    PushEachLive(b.sinks, b.IdsOn(t), f);
    var a', b' := Step(a, Broadcast(t, f), true), Step(b, Broadcast(t, f), false);
    forall u ensures LiveIds(a'.sinks, a'.IdsOn(u)) == LiveIds(b'.sinks, b'.IdsOn(u)) {
      LiveListsFollow(a, b, a'.sinks, u);
      LiveTwice(a.sinks, a'.sinks, a.IdsOn(u));
    }
  }

  /** A new sink extends a list's live part by itself. */
  lemma LiveAfterSubscribe(r: Reg, t: Topic, cap: nat, prune: bool, u: Topic)
    requires ListOk(r, u) && ListOk(r, t)
    ensures var r' := Step(r, Subscribe(t, cap), prune);
      LiveIds(r'.sinks, r'.IdsOn(u)) == LiveIds(r.sinks, r.IdsOn(u)) + if u == t then [|r.sinks|] else []
  {
    var r' := Step(r, Subscribe(t, cap), prune);
    SameLive(r.sinks, r'.sinks, r.IdsOn(u));
    if u == t {
      LiveIdsConcat(r'.sinks, r.IdsOn(u), [|r.sinks|]);
      assert [|r.sinks|][1..] == [];
    }
  }

  lemma AlikeAfterSubscribe(a: Reg, b: Reg, t: Topic, cap: nat)
    requires Alike(a, b) && Inv(a) && Inv(b)
    ensures Alike(Step(a, Subscribe(t, cap), true), Step(b, Subscribe(t, cap), false))
  {
    var a', b' := Step(a, Subscribe(t, cap), true), Step(b, Subscribe(t, cap), false);
    forall u ensures LiveIds(a'.sinks, a'.IdsOn(u)) == LiveIds(b'.sinks, b'.IdsOn(u)) {
      assert ListOk(a, t) && ListOk(a, u) && ListOk(b, t) && ListOk(b, u);
      LiveAfterSubscribe(a, t, cap, true, u);
      LiveAfterSubscribe(b, t, cap, false, u);
    }
  }

  lemma AlikeAfterOther(a: Reg, b: Reg, op: RegOp)
    requires Alike(a, b) && (op.Read? || op.Release?)
    ensures Alike(Step(a, op, true), Step(b, op, false))
  {
    var a', b' := Step(a, op, true), Step(b, op, false);
    forall u ensures LiveIds(a'.sinks, a'.IdsOn(u)) == LiveIds(b'.sinks, b'.IdsOn(u)) {
      LiveListsFollow(a, b, a'.sinks, u);
    }
  }

  /** A registry that never prunes gives every sink the same history and every topic the same
      subscriber count, over every run. */
  lemma {:induction false} PruningIsUnobservable(ops: seq<RegOp>)
    ensures Alike(Run(ops, true), Run(ops, false))
    ensures forall t :: Run(ops, true).Count(t) == Run(ops, false).Count(t)
  {
    if ops != [] {
      var front, op := ops[..|ops| - 1], ops[|ops| - 1];
      var a, b := Run(front, true), Run(front, false);
      PruningIsUnobservable(front);
      RunInv(front, true);
      RunInv(front, false);
      match op
      case Subscribe(t, cap) => AlikeAfterSubscribe(a, b, t, cap);
      case Broadcast(t, f) => AlikeAfterBroadcast(a, b, t, f);
      case Read(id) => AlikeAfterOther(a, b, op);
      case Release(id) => AlikeAfterOther(a, b, op);
    }
  }
}
