/** One topic of the plugin's outbound side: who is meshed, what waits, what reached the net.
    The plugin's state is a product of these, one for each topic; `App` proves that. */
module Outbox {
  import opened Bytes
  import opened Net

  const PENDING_SENDS_CAP: nat := 8

  /** `up`: the command channel to the net still accepts. */
  datatype Box = Box(peers: set<Peer>, pending: seq<Octets>, sent: seq<Octets>, up: bool) {
    predicate Meshed() {
      peers != {}
    }
  }

  // ----- steps -----

  /** `enqueue_send` */
  function Enqueued(q: seq<Octets>, m: Octets): (r: seq<Octets>)
    ensures |q| <= PENDING_SENDS_CAP ==> r == LastN(q + [m], PENDING_SENDS_CAP)
  {
    (if |q| >= PENDING_SENDS_CAP then q[1..] else q) + [m]
  }

  /** A publish goes straight out when meshed, else waits. */
  function Offer(b: Box, m: Octets): Box {
    if !b.Meshed() then b.(pending := Enqueued(b.pending, m))
    else if b.up then b.(sent := b.sent + [m])
    else b
  }

  /** The topic's peer set after one event. */
  function PeersAfter(peers: set<Peer>, topic: Topic, e: NetEvent): set<Peer> {
    match e
    case SubscriptionChange(t, p, joined) => if t != topic then peers else if joined then peers + {p} else peers - {p}
    case PeerDown(p) => peers - {p}
    case _ => peers
  }

  function PeersAfterAll(peers: set<Peer>, topic: Topic, events: seq<NetEvent>): set<Peer> {
    if events == [] then peers
    else PeersAfter(PeersAfterAll(peers, topic, events[..|events| - 1]), topic, events[|events| - 1])
  }

  /** Some join in the batch found the topic without peers. */
  predicate Forms(peers: set<Peer>, topic: Topic, events: seq<NetEvent>) {
    events != [] &&
    (|| Forms(peers, topic, events[..|events| - 1])
     || (var e := events[|events| - 1];
         e.SubscriptionChange? && e.topic == topic && e.joined
         && PeersAfterAll(peers, topic, events[..|events| - 1]) == {}))
  }

  /** `flush_pending_for`: everything that waits goes out, or is lost on a closed channel. */
  function Flush(b: Box): Box {
    b.(pending := [], sent := if b.up then b.sent + b.pending else b.sent)
  }

  /** `drain_net_events` for one topic: the flush comes after the whole batch. */
  function Drain(b: Box, topic: Topic, events: seq<NetEvent>): Box {
    var b' := b.(peers := PeersAfterAll(b.peers, topic, events));
    if Forms(b.peers, topic, events) then Flush(b') else b'
  }

  // ----- the buffer invariant -----

  predicate Settled(b: Box) {
    (b.Meshed() ==> b.pending == []) && |b.pending| <= PENDING_SENDS_CAP
  }

  /** A topic that a batch turns from unmeshed to meshed formed within it. */
  lemma {:induction false} MeshNeedsForming(peers: set<Peer>, topic: Topic, events: seq<NetEvent>)
    requires PeersAfterAll(peers, topic, events) != {}
    ensures peers != {} || Forms(peers, topic, events)
  {
    if events != [] {
      var front := events[..|events| - 1];
      if PeersAfterAll(peers, topic, front) != {} {
        MeshNeedsForming(peers, topic, front);
      }
    }
  }

  lemma OfferSettles(b: Box, m: Octets)
    requires Settled(b)
    ensures Settled(Offer(b, m))
  {
  }

  lemma DrainSettles(b: Box, topic: Topic, events: seq<NetEvent>)
    requires Settled(b)
    ensures Settled(Drain(b, topic, events))
  {
    if Drain(b, topic, events).Meshed() {
      MeshNeedsForming(b.peers, topic, events);
    }
  }

  // ----- runs -----

  datatype Op = Publish(m: Octets) | Deliver(events: seq<NetEvent>) | SetUp(up: bool)

  function Step(b: Box, topic: Topic, op: Op): Box {
    match op
    case Publish(m) => Offer(b, m)
    case Deliver(events) => Drain(b, topic, events)
    case SetUp(up) => b.(up := up)
  }

  function Run(topic: Topic, ops: seq<Op>): Box {
    if ops == [] then Box({}, [], [], false)
    else Step(Run(topic, ops[..|ops| - 1]), topic, ops[|ops| - 1])
  }

  lemma {:induction false} RunSettled(topic: Topic, ops: seq<Op>)
    ensures Settled(Run(topic, ops))
  {
    if ops != [] {
      RunSettled(topic, ops[..|ops| - 1]);
      if ops[|ops| - 1].Deliver? {
        DrainSettles(Run(topic, ops[..|ops| - 1]), topic, ops[|ops| - 1].events);
      }
    }
  }

  function Published(ops: seq<Op>): seq<Octets> {
    if ops == [] then []
    else Published(ops[..|ops| - 1]) + if ops[|ops| - 1].Publish? then [ops[|ops| - 1].m] else []
  }

  /** Some steps from any box on. */
  function Steps(b: Box, topic: Topic, ops: seq<Op>): Box {
    if ops == [] then b else Step(Steps(b, topic, ops[..|ops| - 1]), topic, ops[|ops| - 1])
  }

  lemma {:induction false} StepsConcat(topic: Topic, a: seq<Op>, b: seq<Op>)
    ensures Run(topic, a + b) == Steps(Run(topic, a), topic, b)
  {
    if b == [] {
      assert a + b == a;
    } else {
      assert (a + b)[..|a + b| - 1] == a + b[..|b| - 1];
      StepsConcat(topic, a, b[..|b| - 1]);
    }
  }

  lemma {:induction false} PublishedConcat(a: seq<Op>, b: seq<Op>)
    ensures Published(a + b) == Published(a) + Published(b)
  {
    if b == [] {
      assert a + b == a;
    } else {
      assert (a + b)[..|a + b| - 1] == a + b[..|b| - 1];
      PublishedConcat(a, b[..|b| - 1]);
    }
  }

  lemma {:induction false} DeliveredConcat(a: seq<Op>, b: seq<Op>)
    ensures Delivered(a + b) == Delivered(a) + Delivered(b)
  {
    if b == [] {
      assert a + b == a;
    } else {
      assert (a + b)[..|a + b| - 1] == a + b[..|b| - 1];
      DeliveredConcat(a, b[..|b| - 1]);
    }
  }

  lemma RunConcat(topic: Topic, a: seq<Op>, b: seq<Op>)
    ensures Run(topic, a + b) == Steps(Run(topic, a), topic, b)
    ensures Published(a + b) == Published(a) + Published(b)
    ensures Delivered(a + b) == Delivered(a) + Delivered(b)
  {
    StepsConcat(topic, a, b);
    PublishedConcat(a, b);
    DeliveredConcat(a, b);
  }

  // ----- what became of each message -----

  /** Direct: out at once. Refused: the channel was closed. Queued: still waiting. Flushed and
      Dropped: left the buffer with a flush, with the channel open or closed. Evicted: pushed out. */
  datatype Fate = Direct | Refused | Queued | Flushed | Dropped | Evicted {
    predicate Buffered() {
      !Direct? && !Refused?
    }
  }

  datatype Entry = Entry(m: Octets, fate: Fate)

  function Ms(l: seq<Entry>): (r: seq<Octets>)
    ensures |r| == |l| && forall i | 0 <= i < |l| :: r[i] == l[i].m
  {
    seq(|l|, i requires 0 <= i < |l| => l[i].m)
  }

  /** The last `k` entries take a new fate. */
  function Refate(l: seq<Entry>, k: nat, fate: Fate): (r: seq<Entry>)
    requires k <= |l|
    ensures |r| == |l| && r[..|l| - k] == l[..|l| - k]
    ensures forall i | |l| - k <= i < |l| :: r[i] == Entry(l[i].m, fate)
  {
    l[..|l| - k] + seq(k, i requires 0 <= i < k => Entry(l[|l| - k + i].m, fate))
  }

  /** The entries after the oldest waiting message is evicted and the next one queued. */
  function EvictedFor(l: seq<Entry>, k: nat, m: Octets): seq<Entry>
    requires 0 < k <= |l|
  {
    l[|l| - k := l[|l| - k].(fate := Evicted)] + [Entry(m, Queued)]
  }

  /** Fates after one step on `b`, whose waiting messages are the last entries of `l`. */
  function StepLedger(l: seq<Entry>, b: Box, topic: Topic, op: Op): seq<Entry>
    requires |b.pending| <= |l|
  {
    match op
    case Publish(m) =>
      if b.Meshed() then l + [Entry(m, if b.up then Direct else Refused)]
      else if |b.pending| >= PENDING_SENDS_CAP then EvictedFor(l, |b.pending|, m)
      else l + [Entry(m, Queued)]
    case Deliver(events) =>
      if Forms(b.peers, topic, events) then Refate(l, |b.pending|, if b.up then Flushed else Dropped) else l
    case SetUp(_) => l
  }

  function Ledger(topic: Topic, ops: seq<Op>): (l: seq<Entry>)
    ensures |Run(topic, ops).pending| <= |l|
  {
    if ops == [] then []
    else
      var front := ops[..|ops| - 1];
      var l, b := Ledger(topic, front), Run(topic, front);
      StepLedger(l, b, topic, ops[|ops| - 1])
  }

  function SentIn(l: seq<Entry>): seq<Octets> {
    if l == [] then []
    else SentIn(l[..|l| - 1]) + if l[|l| - 1].fate.Direct? || l[|l| - 1].fate.Flushed? then [l[|l| - 1].m] else []
  }

  /** The waiting messages are exactly the Queued entries, and they are the last ones. */
  predicate QueuedTail(l: seq<Entry>, q: seq<Octets>) {
    && |q| <= |l|
    && (forall i | 0 <= i < |l| :: l[i].fate.Queued? <==> |l| - |q| <= i)
    && (forall i | 0 <= i < |q| :: l[|l| - |q| + i].m == q[i])
  }

  /** Every evicted message has eight newer ones that also went through the buffer. */
  predicate EvictedByEight(l: seq<Entry>) {
    forall i | 0 <= i < |l| && l[i].fate.Evicted? ::
      i + PENDING_SENDS_CAP < |l| && forall j | i < j <= i + PENDING_SENDS_CAP :: l[j].fate.Buffered()
  }

  predicate LedgerOk(l: seq<Entry>, b: Box) {
    QueuedTail(l, b.pending) && EvictedByEight(l) && SentIn(l) == b.sent
  }

  lemma SentSnoc(l: seq<Entry>, e: Entry)
    ensures SentIn(l + [e]) == SentIn(l) + if e.fate.Direct? || e.fate.Flushed? then [e.m] else []
  {
  }

  /** Entries that leave the Queued fate for one that is not sent do not change what was sent. */
  lemma {:induction false} SentSame(l: seq<Entry>, r: seq<Entry>)
    requires |l| == |r|
    requires forall i | 0 <= i < |l| ::
               l[i] == r[i] || (l[i].fate.Queued? && (r[i].fate.Evicted? || r[i].fate.Dropped?))
    ensures SentIn(l) == SentIn(r)
  {
    if l != [] {
      SentSame(l[..|l| - 1], r[..|r| - 1]);
    }
  }

  lemma {:induction false} SentConcat(a: seq<Entry>, b: seq<Entry>)
    ensures SentIn(a + b) == SentIn(a) + SentIn(b)
  {
    if b == [] {
      assert a + b == a;
    } else {
      var front, last := b[..|b| - 1], b[|b| - 1];
      SentConcat(a, front);
      assert a + b == (a + front) + [last];
      SentSnoc(a + front, last);
    }
  }

  lemma {:induction false} SentNone(l: seq<Entry>)
    requires forall i | 0 <= i < |l| :: l[i].fate.Queued?
    ensures SentIn(l) == []
  {
    if l != [] {
      SentNone(l[..|l| - 1]);
    }
  }

  lemma {:induction false} SentAll(l: seq<Entry>, q: seq<Octets>)
    requires |l| == |q| && forall i | 0 <= i < |l| :: l[i] == Entry(q[i], Flushed)
    ensures SentIn(l) == q
  {
    if l != [] {
      SentAll(l[..|l| - 1], q[..|q| - 1]);
    }
  }

  lemma SentParts(settled: seq<Entry>, waiting: seq<Entry>, flushed: seq<Entry>, q: seq<Octets>)
    requires |waiting| == |flushed| == |q|
    requires forall i | 0 <= i < |q| :: waiting[i].fate.Queued? && flushed[i] == Entry(q[i], Flushed)
    ensures SentIn(settled + flushed) == SentIn(settled + waiting) + q
  {
    SentConcat(settled, waiting);
    SentConcat(settled, flushed);
    SentNone(waiting);
    SentAll(flushed, q);
    assert SentIn(settled) + [] == SentIn(settled);
  }

  /** Turning a Queued tail into Flushed sends it, in order, after what was sent before. */
  lemma SentFlushed(l: seq<Entry>, q: seq<Octets>)
    requires QueuedTail(l, q)
    ensures SentIn(Refate(l, |q|, Flushed)) == SentIn(l) + q
  {
    var k := |l| - |q|;
    var r := Refate(l, |q|, Flushed);
    assert l[..k] + l[k..] == l;
    assert l[..k] + r[k..] == r by {
      assert r == r[..k] + r[k..];
    }
    SentParts(l[..k], l[k..], r[k..], q);
  }

  lemma SentAfterEviction(l: seq<Entry>, q: seq<Octets>, m: Octets)
    requires QueuedTail(l, q) && q != []
    ensures SentIn(EvictedFor(l, |q|, m)) == SentIn(l)
  {
    var kept := l[|l| - |q| := l[|l| - |q|].(fate := Evicted)];
    SentSame(l, kept);
    SentSnoc(kept, Entry(m, Queued));
  }

  /** The newer seven and the next one follow the evicted message. */
  lemma EightFollow(l: seq<Entry>, q: seq<Octets>, m: Octets)
    requires QueuedTail(l, q) && EvictedByEight(l) && |q| == PENDING_SENDS_CAP
    ensures EvictedByEight(EvictedFor(l, |q|, m))
  {
    var l' := EvictedFor(l, |q|, m);
    forall i | 0 <= i < |l'| && l'[i].fate.Evicted?
      ensures i + PENDING_SENDS_CAP < |l'| && forall j | i < j <= i + PENDING_SENDS_CAP :: l'[j].fate.Buffered()
    {
      assert i == |l| - |q| || l[i].fate.Evicted?;
    }
  }

  lemma EvictOldest(l: seq<Entry>, q: seq<Octets>, m: Octets)
    requires QueuedTail(l, q) && EvictedByEight(l) && |q| == PENDING_SENDS_CAP
    ensures var l' := EvictedFor(l, |q|, m);
      QueuedTail(l', q[1..] + [m]) && EvictedByEight(l') && SentIn(l') == SentIn(l)
  {
    SentAfterEviction(l, q, m);
    EightFollow(l, q, m);
  }

  lemma AppendEntry(l: seq<Entry>, e: Entry)
    requires EvictedByEight(l) && !e.fate.Evicted?
    ensures EvictedByEight(l + [e])
  {
    var l' := l + [e];
    forall i | 0 <= i < |l'| && l'[i].fate.Evicted?
      ensures i + PENDING_SENDS_CAP < |l'| && forall j | i < j <= i + PENDING_SENDS_CAP :: l'[j].fate.Buffered()
    {
      assert l[i].fate.Evicted?;
    }
  }

  lemma AppendQueued(l: seq<Entry>, q: seq<Octets>, m: Octets)
    requires QueuedTail(l, q)
    ensures QueuedTail(l + [Entry(m, Queued)], q + [m])
  {
  }

  lemma PublishWhenMeshed(l: seq<Entry>, b: Box, topic: Topic, m: Octets)
    requires LedgerOk(l, b) && Settled(b) && b.Meshed()
    ensures LedgerOk(StepLedger(l, b, topic, Publish(m)), Offer(b, m))
  {
    var e := Entry(m, if b.up then Direct else Refused);
    SentSnoc(l, e);
    AppendEntry(l, e);
  }

  lemma PublishWhenRoom(l: seq<Entry>, b: Box, topic: Topic, m: Octets)
    requires LedgerOk(l, b) && !b.Meshed() && |b.pending| < PENDING_SENDS_CAP
    ensures LedgerOk(StepLedger(l, b, topic, Publish(m)), Offer(b, m))
  {
    SentSnoc(l, Entry(m, Queued));
    AppendEntry(l, Entry(m, Queued));
    AppendQueued(l, b.pending, m);
  }

  lemma LedgerAfterPublish(l: seq<Entry>, b: Box, topic: Topic, m: Octets)
    requires LedgerOk(l, b) && Settled(b)
    ensures LedgerOk(StepLedger(l, b, topic, Publish(m)), Offer(b, m))
  {
    if b.Meshed() {
      PublishWhenMeshed(l, b, topic, m);
    } else if |b.pending| < PENDING_SENDS_CAP {
      PublishWhenRoom(l, b, topic, m);
    } else {
      EvictOldest(l, b.pending, m);
    }
  }

  /** A flush settles every waiting entry and leaves the evicted ones in place. */
  lemma RefateTail(l: seq<Entry>, q: seq<Octets>, fate: Fate)
    requires QueuedTail(l, q) && EvictedByEight(l) && (fate.Flushed? || fate.Dropped?)
    ensures QueuedTail(Refate(l, |q|, fate), []) && EvictedByEight(Refate(l, |q|, fate))
  {
  }

  lemma LedgerAfterFlush(l: seq<Entry>, q: seq<Octets>, sent: seq<Octets>)
    requires QueuedTail(l, q) && EvictedByEight(l) && SentIn(l) == sent
    ensures var l' := Refate(l, |q|, Flushed); QueuedTail(l', []) && EvictedByEight(l') && SentIn(l') == sent + q
  {
    RefateTail(l, q, Flushed);
    SentFlushed(l, q);
  }

  lemma LedgerAfterDrop(l: seq<Entry>, q: seq<Octets>)
    requires QueuedTail(l, q) && EvictedByEight(l)
    ensures var l' := Refate(l, |q|, Dropped); QueuedTail(l', []) && EvictedByEight(l') && SentIn(l') == SentIn(l)
  {
    var l' := Refate(l, |q|, Dropped);
    RefateTail(l, q, Dropped);
    assert forall i | 0 <= i < |l| - |q| :: l'[i] == l'[..|l| - |q|][i] == l[..|l| - |q|][i];
    SentSame(l, l');
  }

  lemma LedgerAfterDrain(l: seq<Entry>, b: Box, topic: Topic, events: seq<NetEvent>)
    requires LedgerOk(l, b)
    ensures LedgerOk(StepLedger(l, b, topic, Deliver(events)), Drain(b, topic, events))
  {
    if Forms(b.peers, topic, events) {
      if b.up {
        LedgerAfterFlush(l, b.pending, b.sent);
      } else {
        LedgerAfterDrop(l, b.pending);
      }
    }
  }

  lemma LedgerKeepsMessages(l: seq<Entry>, b: Box, topic: Topic, op: Op)
    requires |b.pending| <= |l|
    ensures Ms(StepLedger(l, b, topic, op)) == Ms(l) + if op.Publish? then [op.m] else []
  {
  }

  lemma {:induction false} LedgerHolds(topic: Topic, ops: seq<Op>)
    ensures LedgerOk(Ledger(topic, ops), Run(topic, ops))
    ensures Ms(Ledger(topic, ops)) == Published(ops)
  {
    if ops != [] {
      var front, op := ops[..|ops| - 1], ops[|ops| - 1];
      LedgerHolds(topic, front);
      RunSettled(topic, front);
      LedgerKeepsMessages(Ledger(topic, front), Run(topic, front), topic, op);
      LedgerAfterStep(Ledger(topic, front), Run(topic, front), topic, op);
    }
  }

  lemma LedgerAfterStep(l: seq<Entry>, b: Box, topic: Topic, op: Op)
    requires LedgerOk(l, b) && Settled(b)
    ensures LedgerOk(StepLedger(l, b, topic, op), Step(b, topic, op))
  {
    match op
    case Publish(m) => LedgerAfterPublish(l, b, topic, m);
    case Deliver(events) => LedgerAfterDrain(l, b, topic, events);
    case SetUp(_) =>
  }

  // ----- when a closed channel loses messages -----

  /** A publish on a meshed topic, or the flush of a buffer that is not empty, with the channel closed. */
  predicate Loses(b: Box, topic: Topic, op: Op) {
    !b.up &&
    match op
    case Publish(_) => b.Meshed()
    case Deliver(events) => b.pending != [] && Forms(b.peers, topic, events)
    case SetUp(_) => false
  }

  predicate Lossless(l: seq<Entry>) {
    forall i | 0 <= i < |l| :: !l[i].fate.Refused? && !l[i].fate.Dropped?
  }

  /** What is lost stays lost: later steps only settle entries that are still waiting. */
  lemma LosslessStep(l: seq<Entry>, b: Box, topic: Topic, op: Op)
    requires QueuedTail(l, b.pending)
    ensures Lossless(StepLedger(l, b, topic, op)) <==> Lossless(l) && !Loses(b, topic, op)
  {
    match op
    case Publish(m) => LosslessPublish(l, b, topic, m);
    case Deliver(events) => LosslessDeliver(l, b, topic, events);
    case SetUp(_) =>
  }

  lemma LosslessPublish(l: seq<Entry>, b: Box, topic: Topic, m: Octets)
    requires QueuedTail(l, b.pending)
    ensures Lossless(StepLedger(l, b, topic, Publish(m))) <==> Lossless(l) && !Loses(b, topic, Publish(m))
  {
    var l' := StepLedger(l, b, topic, Publish(m));
    assert forall i | 0 <= i < |l| :: l'[i] == l[i] || (l[i].fate.Queued? && l'[i].fate.Evicted?);
    assert l'[|l|].fate == if b.Meshed() then if b.up then Direct else Refused else Queued;
  }

  lemma LosslessDeliver(l: seq<Entry>, b: Box, topic: Topic, events: seq<NetEvent>)
    requires QueuedTail(l, b.pending)
    ensures Lossless(StepLedger(l, b, topic, Deliver(events))) <==> Lossless(l) && !Loses(b, topic, Deliver(events))
  {
    var l', k := StepLedger(l, b, topic, Deliver(events)), |l| - |b.pending|;
    if Forms(b.peers, topic, events) {
      var fate := if b.up then Flushed else Dropped;
      assert forall i | 0 <= i < k :: l'[i] == l[..k][i];
      assert forall i | k <= i < |l| :: l'[i].fate == fate && l[i].fate.Queued?;
      assert b.pending != [] ==> l'[k].fate == fate;
    }
  }

  predicate LosesAt(topic: Topic, ops: seq<Op>, i: nat)
    requires i < |ops|
  {
    Loses(Run(topic, ops[..i]), topic, ops[i])
  }

  lemma LosesAtInPrefix(topic: Topic, ops: seq<Op>, n: nat, i: nat)
    requires i < n <= |ops|
    ensures LosesAt(topic, ops[..n], i) <==> LosesAt(topic, ops, i)
  {
    assert ops[..n][..i] == ops[..i];
  }

  lemma LosslessAfterLast(topic: Topic, ops: seq<Op>)
    requires ops != []
    ensures Lossless(Ledger(topic, ops))
      <==> Lossless(Ledger(topic, ops[..|ops| - 1])) && !LosesAt(topic, ops, |ops| - 1)
  {
    var n := |ops| - 1;
    LedgerHolds(topic, ops[..n]);
    LosslessStep(Ledger(topic, ops[..n]), Run(topic, ops[..n]), topic, ops[n]);
  }

  /** A run loses messages otherwise than by eviction exactly when one of its steps publishes to a
      mesh, or flushes a buffer that is not empty, while the channel is closed. */
  lemma {:induction false} LosslessIff(topic: Topic, ops: seq<Op>)
    ensures Lossless(Ledger(topic, ops)) <==> forall i | 0 <= i < |ops| :: !LosesAt(topic, ops, i)
  {
    if ops != [] {
      var n := |ops| - 1;
      LosslessIff(topic, ops[..n]);
      LosslessAfterLast(topic, ops);
      forall i | 0 <= i < n ensures LosesAt(topic, ops[..n], i) <==> LosesAt(topic, ops, i) {
        LosesAtInPrefix(topic, ops, n, i);
      }
    }
  }

  /** A publish to a mesh over a closed channel is such a loss. */
  lemma ClosedChannelLoses(topic: Topic, p: Peer, m: Octets)
    ensures var join := SubscriptionChange(topic, p, true);
      !Lossless(Ledger(topic, [SetUp(true), Deliver([join]), SetUp(false), Publish(m)]))
  {
    var join := SubscriptionChange(topic, p, true);
    var ops := [SetUp(true), Deliver([join]), SetUp(false), Publish(m)];
    assert ops[..3][..2] == ops[..2] && ops[..2][..1] == ops[..1] && ops[..1][..0] == [];
    assert PeersAfterAll({}, topic, [join]) == {p} by {
      assert [join][..0] == [];
    }
    assert LosesAt(topic, ops, 3);
    LosslessIff(topic, ops);
  }

  /** No events come before the channel is first up, and from then on it stays up. */
  predicate KeepsOpen(ops: seq<Op>) {
    forall i | 0 <= i < |ops| ::
      && (ops[i].Deliver? && ops[i].events != [] ==> SetUp(true) in ops[..i])
      && (ops[i] == SetUp(false) ==> SetUp(true) !in ops[..i])
  }

  lemma {:induction false} UpAfter(topic: Topic, ops: seq<Op>)
    requires KeepsOpen(ops)
    ensures Run(topic, ops).up <==> SetUp(true) in ops
    ensures SetUp(true) !in ops ==> Run(topic, ops).peers == {}
  {
    if ops != [] {
      var front, op := ops[..|ops| - 1], ops[|ops| - 1];
      KeepsOpenFirst(ops, |front|);
      UpAfter(topic, front);
      assert ops == front + [op];
    }
  }

  lemma KeepsOpenFirst(ops: seq<Op>, n: nat)
    requires KeepsOpen(ops) && n <= |ops|
    ensures KeepsOpen(ops[..n])
  {
    forall i | 0 <= i < n ensures ops[..n][..i] == ops[..i] {
    }
  }

  /** Then whatever is published, before and after, is lost only to eviction. */
  lemma {:induction false} OpenChannelLosesNothing(topic: Topic, ops: seq<Op>)
    requires KeepsOpen(ops)
    ensures Lossless(Ledger(topic, ops))
  {
    forall i | 0 <= i < |ops| ensures !LosesAt(topic, ops, i) {
      KeepsOpenFirst(ops, i);
      UpAfter(topic, ops[..i]);
    }
    LosslessIff(topic, ops);
  }

  lemma KeepsOpenSnoc(ops: seq<Op>, op: Op)
    requires KeepsOpen(ops)
    requires op.Deliver? && op.events != [] ==> SetUp(true) in ops
    requires op == SetUp(false) ==> SetUp(true) !in ops
    ensures KeepsOpen(ops + [op])
  {
    var all := ops + [op];
    forall i | 0 <= i < |all| ensures all[..i] == ops[..i] {
    }
    assert ops[..|ops|] == ops;
  }

  /** Order and conservation over any run: the net gets a subsequence of what was published, in
      order; each message is sent, waiting, or evicted by eight newer buffered ones, and only a
      closed channel loses any otherwise; waiting messages come after all settled ones. */
  lemma {:induction false} EveryMessageAccountedFor(topic: Topic, ops: seq<Op>)
    ensures var l, b := Ledger(topic, ops), Run(topic, ops);
      && Ms(l) == Published(ops)
      && SentIn(l) == b.sent
      && QueuedTail(l, b.pending)
      && EvictedByEight(l)
      && (b.Meshed() ==> forall e | e in l :: !e.fate.Queued?)
      && |b.pending| <= PENDING_SENDS_CAP
  {
    LedgerHolds(topic, ops);
    RunSettled(topic, ops);
  }

  // ----- the mesh table is the event history -----

  /** What the newest event about peer `p` and this topic says: Some(true) for a subscription. */
  function LastWord(topic: Topic, p: Peer, events: seq<NetEvent>): Option<bool> {
    if events == [] then None
    else
      match events[|events| - 1]
      case SubscriptionChange(t, q, joined) =>
        if t == topic && q == p then Some(joined) else LastWord(topic, p, events[..|events| - 1])
      case PeerDown(q) => if q == p then Some(false) else LastWord(topic, p, events[..|events| - 1])
      case _ => LastWord(topic, p, events[..|events| - 1])
  }

  lemma {:induction false} PeersAreLastWords(peers: set<Peer>, topic: Topic, events: seq<NetEvent>, p: Peer)
    ensures p in PeersAfterAll(peers, topic, events) <==>
      if LastWord(topic, p, events).Some? then LastWord(topic, p, events).value else p in peers
  {
    if events != [] {
      PeersAreLastWords(peers, topic, events[..|events| - 1], p);
    }
  }

  function Delivered(ops: seq<Op>): seq<NetEvent> {
    if ops == [] then []
    else Delivered(ops[..|ops| - 1]) + if ops[|ops| - 1].Deliver? then ops[|ops| - 1].events else []
  }

  lemma {:induction false} PeersConcat(peers: set<Peer>, topic: Topic, a: seq<NetEvent>, b: seq<NetEvent>)
    ensures PeersAfterAll(peers, topic, a + b) == PeersAfterAll(PeersAfterAll(peers, topic, a), topic, b)
  {
    if b == [] {
      assert a + b == a;
    } else {
      assert (a + b)[..|a + b| - 1] == a + b[..|b| - 1];
      PeersConcat(peers, topic, a, b[..|b| - 1]);
    }
  }

  /** The mesh is what all delivered events make of no peers. */
  lemma {:induction false} PeersOfRun(topic: Topic, ops: seq<Op>)
    ensures Run(topic, ops).peers == PeersAfterAll({}, topic, Delivered(ops))
  {
    if ops != [] {
      var front, op := ops[..|ops| - 1], ops[|ops| - 1];
      PeersOfRun(topic, front);
      if op.Deliver? {
        PeersConcat({}, topic, Delivered(front), op.events);
      } else {
        assert Delivered(front) + [] == Delivered(front);
      }
    }
  }

  lemma {:induction false} LastWordConcat(topic: Topic, p: Peer, a: seq<NetEvent>, b: seq<NetEvent>)
    ensures LastWord(topic, p, a + b) ==
      if LastWord(topic, p, b).Some? then LastWord(topic, p, b) else LastWord(topic, p, a)
  {
    if b == [] {
      assert a + b == a;
    } else {
      assert (a + b)[..|a + b| - 1] == a + b[..|b| - 1];
      LastWordConcat(topic, p, a, b[..|b| - 1]);
    }
  }

  /** However the events are batched, a peer is meshed on a topic exactly when the newest event
      about it (its own subscription changes there and its disconnects) is a subscription. */
  lemma {:induction false} MeshIsEventHistory(topic: Topic, ops: seq<Op>, p: Peer)
    ensures p in Run(topic, ops).peers <==> LastWord(topic, p, Delivered(ops)) == Some(true)
  {
    if ops != [] {
      var front, op := ops[..|ops| - 1], ops[|ops| - 1];
      MeshIsEventHistory(topic, front, p);
      if op.Deliver? {
        PeersAreLastWords(Run(topic, front).peers, topic, op.events, p);
        LastWordConcat(topic, p, Delivered(front), op.events);
      } else {
        assert Delivered(front) + [] == Delivered(front);
      }
    }
  }

  /** The newest event about this peer here is a subscription. */
  predicate IsIn(topic: Topic, p: Peer, history: seq<NetEvent>) {
    LastWord(topic, p, history) == Some(true)
  }

  ghost predicate Unmeshed(topic: Topic, history: seq<NetEvent>) {
    forall p :: !IsIn(topic, p, history)
  }

  lemma UnmeshedIff(topic: Topic, ops: seq<Op>)
    ensures Unmeshed(topic, Delivered(ops)) <==> !Run(topic, ops).Meshed()
  {
    var peers := Run(topic, ops).peers;
    if peers != {} {
      var p :| p in peers;
      MeshIsEventHistory(topic, ops, p);
      assert IsIn(topic, p, Delivered(ops));
    } else {
      forall p ensures !IsIn(topic, p, Delivered(ops)) {
        MeshIsEventHistory(topic, ops, p);
      }
    }
  }

  /** An event that ends the membership of `p`. */
  predicate Leaves(e: NetEvent, topic: Topic, p: Peer) {
    e == SubscriptionChange(topic, p, false) || e == PeerDown(p)
  }

  predicate JoinedLastAt(topic: Topic, p: Peer, events: seq<NetEvent>, i: nat) {
    && i < |events| && events[i] == SubscriptionChange(topic, p, true)
    && forall j | i < j < |events| :: !Leaves(events[j], topic, p)
  }

  lemma {:induction false} LastWordIsJoin(topic: Topic, p: Peer, events: seq<NetEvent>, i: nat)
    requires JoinedLastAt(topic, p, events, i)
    ensures LastWord(topic, p, events) == Some(true)
  {
    if i < |events| - 1 {
      LastWordIsJoin(topic, p, events[..|events| - 1], i);
    }
  }

  lemma {:induction false} LastJoin(topic: Topic, p: Peer, events: seq<NetEvent>) returns (i: nat)
    requires LastWord(topic, p, events) == Some(true)
    ensures JoinedLastAt(topic, p, events, i)
  {
    i := |events| - 1;
    if events[i] != SubscriptionChange(topic, p, true) {
      i := LastJoin(topic, p, events[..i]);
    }
  }

  /** By position: a peer is meshed exactly when it subscribed here and neither unsubscribed here nor
      disconnected since. */
  lemma MeshedIffJoined(topic: Topic, ops: seq<Op>, p: Peer)
    ensures p in Run(topic, ops).peers <==> exists i :: JoinedLastAt(topic, p, Delivered(ops), i)
  {
    MeshIsEventHistory(topic, ops, p);
    if p in Run(topic, ops).peers {
      var i := LastJoin(topic, p, Delivered(ops));
    } else if i :| JoinedLastAt(topic, p, Delivered(ops), i) {
      LastWordIsJoin(topic, p, Delivered(ops), i);
    }
  }

  // ----- what sends, by the events alone -----

  predicate Joins(e: NetEvent, topic: Topic) {
    e.SubscriptionChange? && e.topic == topic && e.joined
  }

  /** Event `i` is a join here before which nobody is meshed. */
  ghost predicate FoundsAt(peers: set<Peer>, topic: Topic, events: seq<NetEvent>, i: nat)
    requires i < |events|
  {
    Joins(events[i], topic) && forall p :: !InMesh(peers, topic, events[..i], p)
  }

  predicate InMesh(peers: set<Peer>, topic: Topic, events: seq<NetEvent>, p: Peer) {
    LastWord(topic, p, events) == Some(true) || (LastWord(topic, p, events) == None && p in peers)
  }

  ghost predicate Founds(peers: set<Peer>, topic: Topic, events: seq<NetEvent>) {
    exists i: nat | i < |events| :: FoundsAt(peers, topic, events, i)
  }

  lemma NobodyIff(peers: set<Peer>, topic: Topic, events: seq<NetEvent>)
    ensures PeersAfterAll(peers, topic, events) == {} <==> forall p :: !InMesh(peers, topic, events, p)
  {
    var after := PeersAfterAll(peers, topic, events);
    forall p ensures p in after <==> InMesh(peers, topic, events, p) {
      PeersAreLastWords(peers, topic, events, p);
    }
    if after != {} {
      var p :| p in after;
      assert InMesh(peers, topic, events, p);
    }
  }

  lemma FoundsAtInFront(peers: set<Peer>, topic: Topic, events: seq<NetEvent>, i: nat)
    requires i < |events| - 1
    ensures FoundsAt(peers, topic, events[..|events| - 1], i) <==> FoundsAt(peers, topic, events, i)
  {
    assert events[..|events| - 1][..i] == events[..i];
  }

  lemma {:induction false} FormsIff(peers: set<Peer>, topic: Topic, events: seq<NetEvent>)
    ensures Forms(peers, topic, events) <==> Founds(peers, topic, events)
  {
    if events != [] {
      var n := |events| - 1;
      FormsIff(peers, topic, events[..n]);
      NobodyIff(peers, topic, events[..n]);
      forall i: nat | i < n ensures FoundsAt(peers, topic, events[..n], i) <==> FoundsAt(peers, topic, events, i) {
        FoundsAtInFront(peers, topic, events, i);
      }
      assert Forms(peers, topic, events) <==> Founds(peers, topic, events[..n]) || FoundsAt(peers, topic, events, n);
      if i: nat :| i < n && FoundsAt(peers, topic, events[..n], i) {
        assert FoundsAt(peers, topic, events, i);
      }
    }
  }

  /** A batch empties the buffer if and only if it holds a join before which nobody is meshed; then
      everything that waited goes out in order, or is lost on a closed channel, and otherwise it waits on. */
  lemma DrainFlushesIff(b: Box, topic: Topic, events: seq<NetEvent>)
    ensures var b' := Drain(b, topic, events);
      && (b.pending != [] ==>
            (b'.pending == [] <==> exists i: nat | i < |events| :: FoundsAt(b.peers, topic, events, i)))
      && (b'.pending == [] || b'.pending == b.pending) && b'.up == b.up
      && b'.sent == b.sent + if b.pending != [] && b'.pending == [] && b.up then b.pending else []
  {
    FormsIff(b.peers, topic, events);
    assert b.sent + [] == b.sent;
  }

  /** Until somebody joins, nothing is sent. */
  lemma {:induction false} NoJoinNothingSent(topic: Topic, ops: seq<Op>)
    requires forall e | e in Delivered(ops) :: !Joins(e, topic)
    ensures Run(topic, ops).sent == [] && Run(topic, ops).peers == {}
  {
    if ops != [] {
      var front, op := ops[..|ops| - 1], ops[|ops| - 1];
      NoJoinNothingSent(topic, front);
      if op.Deliver? {
        FormsIff({}, topic, op.events);
        NobodyJoins(topic, op.events);
      }
    }
  }

  lemma {:induction false} NobodyJoins(topic: Topic, events: seq<NetEvent>)
    requires forall e | e in events :: !Joins(e, topic)
    ensures PeersAfterAll({}, topic, events) == {}
  {
    if events != [] {
      var front, e := events[..|events| - 1], events[|events| - 1];
      assert e in events && forall x | x in front :: x in events;
      NobodyJoins(topic, front);
    }
  }

  /** The channel is as the last word about it says. */
  function IsUp(ops: seq<Op>): bool {
    if ops == [] then false
    else
      match ops[|ops| - 1]
      case SetUp(up) => up
      case _ => IsUp(ops[..|ops| - 1])
  }

  lemma {:induction false} UpIsLastWord(topic: Topic, ops: seq<Op>)
    ensures Run(topic, ops).up == IsUp(ops)
  {
    if ops != [] {
      UpIsLastWord(topic, ops[..|ops| - 1]);
    }
  }

  /** A join in the batch, with the history up to it leaving nobody meshed. */
  ghost predicate FoundsAfter(topic: Topic, history: seq<NetEvent>, events: seq<NetEvent>) {
    exists i: nat | i < |events| :: Joins(events[i], topic) && Unmeshed(topic, history + events[..i])
  }

  lemma UnmeshedAfter(topic: Topic, ops: seq<Op>, events: seq<NetEvent>, peers: set<Peer>, all: seq<NetEvent>)
    requires peers == Run(topic, ops).peers && all == Delivered(ops) + events
    ensures Unmeshed(topic, all) <==> forall p :: !InMesh(peers, topic, events, p)
  {
    forall p ensures IsIn(topic, p, all) <==> InMesh(peers, topic, events, p) {
      LastWordConcat(topic, p, Delivered(ops), events);
      MeshIsEventHistory(topic, ops, p);
    }
  }

  lemma FoundsAfterIff(topic: Topic, ops: seq<Op>, events: seq<NetEvent>)
    ensures FoundsAfter(topic, Delivered(ops), events) <==> Founds(Run(topic, ops).peers, topic, events)
  {
    var peers := Run(topic, ops).peers;
    forall i: nat | i < |events| ensures FoundsAt(peers, topic, events, i)
        <==> Joins(events[i], topic) && Unmeshed(topic, Delivered(ops) + events[..i])
    {
      UnmeshedAfter(topic, ops, events[..i], peers, Delivered(ops) + events[..i]);
    }
  }

  // ----- what waits, in closed form -----

  /** Messages published while nobody was meshed, since a join last found nobody meshed. */
  ghost function SinceFlush(topic: Topic, ops: seq<Op>): seq<Octets> {
    if ops == [] then []
    else
      var front := ops[..|ops| - 1];
      match ops[|ops| - 1]
      case Publish(m) => SinceFlush(topic, front) + if Unmeshed(topic, Delivered(front)) then [m] else []
      case Deliver(events) => if FoundsAfter(topic, Delivered(front), events) then [] else SinceFlush(topic, front)
      case SetUp(_) => SinceFlush(topic, front)
  }

  /** Exactly the newest eight of those wait. */
  lemma {:induction false} PendingIsNewestEight(topic: Topic, ops: seq<Op>)
    ensures Run(topic, ops).pending == LastN(SinceFlush(topic, ops), 8)
  {
    if ops != [] {
      var front, op := ops[..|ops| - 1], ops[|ops| - 1];
      PendingIsNewestEight(topic, front);
      match op
      case Publish(m) => PendingAfterPublish(topic, front, m);
      case Deliver(events) =>
        FormsIff(Run(topic, front).peers, topic, events);
        FoundsAfterIff(topic, front, events);
      case SetUp(_) =>
    }
  }

  lemma PendingAfterPublish(topic: Topic, ops: seq<Op>, m: Octets)
    requires Run(topic, ops).pending == LastN(SinceFlush(topic, ops), 8)
    ensures Offer(Run(topic, ops), m).pending
      == LastN(SinceFlush(topic, ops) + if Unmeshed(topic, Delivered(ops)) then [m] else [], 8)
  {
    UnmeshedIff(topic, ops);
    assert SinceFlush(topic, ops) + [] == SinceFlush(topic, ops);
    LastNTwice(SinceFlush(topic, ops), [m], 8);
  }

  /** What the net has been handed after a run, from the calls and events alone: while the channel is up,
      what is published to a mesh at once, and the newest eight that waited when a join found nobody meshed. */
  ghost function SentFor(topic: Topic, ops: seq<Op>): seq<Octets> {
    if ops == [] then []
    else
      var front := ops[..|ops| - 1];
      SentFor(topic, front) +
      if !IsUp(front) then []
      else
        match ops[|ops| - 1]
        case Publish(m) => if Unmeshed(topic, Delivered(front)) then [] else [m]
        case Deliver(events) =>
          if FoundsAfter(topic, Delivered(front), events) then LastN(SinceFlush(topic, front), 8) else []
        case SetUp(_) => []
  }

  lemma {:induction false} SentExactly(topic: Topic, ops: seq<Op>)
    ensures Run(topic, ops).sent == SentFor(topic, ops)
  {
    if ops != [] {
      var front, op := ops[..|ops| - 1], ops[|ops| - 1];
      SentExactly(topic, front);
      UpIsLastWord(topic, front);
      assert SentFor(topic, front) + [] == SentFor(topic, front);
      match op
      case Publish(m) => UnmeshedIff(topic, front);
      case Deliver(events) =>
        FormsIff(Run(topic, front).peers, topic, events);
        FoundsAfterIff(topic, front, events);
        PendingIsNewestEight(topic, front);
      case SetUp(_) =>
    }
  }

  /** A join and a leave in one batch still flush: the flush is decided while the batch is read
      and carried out after it. */
  lemma JoinThenLeaveStillFlushes(topic: Topic, b: Box, p: Peer)
    requires b.peers == {} && b.up
    ensures var batch := [SubscriptionChange(topic, p, true), SubscriptionChange(topic, p, false)];
      Drain(b, topic, batch) == Box({}, [], b.sent + b.pending, true)
  {
    var join, leave := SubscriptionChange(topic, p, true), SubscriptionChange(topic, p, false);
    assert [join, leave][..1] == [join] && [join][..0] == [];
    assert PeersAfterAll({}, topic, [join]) == {p};
    assert Forms({}, topic, [join]);
  }
}
