/** All gateway clients at once: their pumps, the swarm's own broadcasts and the end of any of them,
    interleaved in any order. A frame is broadcast in one step and handed to the swarm in a later one. */
module Pumps {
  import opened Bytes
  import Ring
  import Fanout
  import opened Gateway

  const SINK_CAPACITY: nat := 128

  /** Where a client's read loop is. Refused: the swarm's channel was closed when it came to send. */
  datatype Pc = Reading | Sending(frame: Octets) | Refused(frame: Octets) | Ended

  /** `heard` is what the client has sent so far, up to the end of its loop; `gone` when its task is over
      and its sink dropped. */
  datatype Client = Client(topic: Topic, sink: nat, pc: Pc, heard: seq<WsMessage>, gone: bool)

  /** A frame from a client, or from the swarm. */
  datatype Entry = Entry(from: Option<nat>, topic: Topic, frame: Octets)

  /** `registry`: what happened to the topic registry. `log`: all broadcasts in order. `commands`: what the
      swarm loop was handed, in order. */
  datatype State = State(
    registry: seq<Fanout.RegOp>,
    clients: seq<Client>,
    log: seq<Entry>,
    commands: seq<Entry>,
    open: bool)

  datatype Step =
    | Connect(topic: Topic)
    | Hear(c: nat, message: WsMessage)
    | Send(c: nat)
    | Write(c: nat)
    | Drop(c: nat)
    | FromSwarm(topic: Topic, frame: Octets)
    | SwarmEnds

  /** A client's task can only be dropped where its pumps wait. */
  predicate CanTake(clients: seq<Client>, step: Step) {
    match step
    case Hear(c, _) => c < |clients| && clients[c].pc.Reading?
    case Send(c) => c < |clients| && clients[c].pc.Sending?
    case Write(c) => c < |clients| && !clients[c].gone
    case Drop(c) => c < |clients| && !clients[c].gone && !clients[c].pc.Sending?
    case _ => true
  }

  predicate Enabled(s: State, step: Step) {
    CanTake(s.clients, step)
  }

  function WithPc(s: State, c: nat, pc: Pc): State
    requires c < |s.clients|
  {
    s.(clients := s.clients[c := s.clients[c].(pc := pc)])
  }

  function Broadcasts(s: State, e: Entry): State {
    s.(registry := s.registry + [Fanout.Broadcast(e.topic, e.frame)], log := s.log + [e])
  }

  /** The read loop takes one message. */
  function Heard(s: State, c: nat, message: WsMessage): State
    requires c < |s.clients|
  {
    var client := s.clients[c];
    var s' := s.(clients := s.clients[c := client.(heard := client.heard + [message])]);
    match message
    case Binary(frame) => WithPc(Broadcasts(s', Entry(Some(c), client.topic, frame)), c, Sending(frame))
    case Close => WithPc(s', c, Ended)
    case Broken => WithPc(s', c, Ended)
    case Ignored => s'
  }

  /** The frame it broadcast goes to the swarm. */
  function Sent(s: State, c: nat): State
    requires c < |s.clients| && s.clients[c].pc.Sending?
  {
    var client := s.clients[c];
    if s.open then WithPc(s.(commands := s.commands + [Entry(Some(c), client.topic, client.pc.frame)]), c, Reading)
    else WithPc(s, c, Refused(client.pc.frame))
  }

  /** A new client gets the next sink. */
  function Connected(s: State, topic: Topic): State {
    s.(registry := s.registry + [Fanout.Subscribe(topic, SINK_CAPACITY)],
       clients := s.clients + [Client(topic, |Fanout.Run(s.registry, true).sinks|, Reading, [], false)])
  }

  /** Its write loop takes a frame from its sink, if there is one. */
  function Written(s: State, c: nat): State
    requires c < |s.clients|
  {
    s.(registry := s.registry + [Fanout.Read(s.clients[c].sink)])
  }

  /** Either loop has ended, so the task does, and with it the sink. */
  function Dropped(s: State, c: nat): State
    requires c < |s.clients|
  {
    var client := s.clients[c];
    s.(registry := s.registry + [Fanout.Release(client.sink)],
       clients := s.clients[c := client.(gone := true, pc := if client.pc.Reading? then Ended else client.pc)])
  }

  function Apply(s: State, step: Step): State {
    if !Enabled(s, step) then s
    else
      match step
      case Connect(topic) => Connected(s, topic)
      case Hear(c, message) => Heard(s, c, message)
      case Send(c) => Sent(s, c)
      case Write(c) => Written(s, c)
      case Drop(c) => Dropped(s, c)
      case FromSwarm(topic, frame) => Broadcasts(s, Entry(None, topic, frame))
      case SwarmEnds => s.(open := false)
  }

  function Run(steps: seq<Step>): State {
    if steps == [] then State([], [], [], [], true) else Apply(Run(steps[..|steps| - 1]), steps[|steps| - 1])
  }

  // ----- one client -----

  /** The frames a client has in a log, in order. */
  function FramesBy(log: seq<Entry>, c: nat): seq<Octets> {
    if log == [] then []
    else FramesBy(log[..|log| - 1], c) + if log[|log| - 1].from == Some(c) then [log[|log| - 1].frame] else []
  }

  /** The frame between its broadcast and its command. */
  function Between(pc: Pc): seq<Octets> {
    if pc.Sending? || pc.Refused? then [pc.frame] else []
  }

  predicate Listening(messages: seq<WsMessage>) {
    forall i | 0 <= i < |messages| :: !messages[i].Close? && !messages[i].Broken?
  }

  /** Everything the client did is what it sent, in order. */
  predicate ClientOk(log: seq<Entry>, commands: seq<Entry>, open: bool, c: nat, client: Client) {
    && FramesBy(log, c) == FramesOf(client.heard)
    && FramesBy(commands, c) + Between(client.pc) == FramesBy(log, c)
    && (client.pc.Reading? || client.pc.Sending? ==> Listening(client.heard))
    && (client.pc.Refused? ==> !open)
  }

  /** Clients' entries come from clients, on their topics. */
  predicate Known(log: seq<Entry>, clients: seq<Client>) {
    forall i | 0 <= i < |log| && log[i].from.Some? ::
      log[i].from.value < |clients| && log[i].topic == clients[log[i].from.value].topic
  }

  predicate ClientsOk(s: State) {
    forall c: nat | c < |s.clients| :: ClientOk(s.log, s.commands, s.open, c, s.clients[c])
  }

  predicate Inv(s: State) {
    && ClientsOk(s)
    && Known(s.log, s.clients) && Known(s.commands, s.clients)
    && forall i | 0 <= i < |s.commands| :: s.commands[i].from.Some?
  }

  lemma FramesBySnoc(log: seq<Entry>, e: Entry, c: nat)
    ensures FramesBy(log + [e], c) == FramesBy(log, c) + if e.from == Some(c) then [e.frame] else []
  {
  }

  lemma {:induction false} FramesOfSnoc(messages: seq<WsMessage>, m: WsMessage)
    requires Listening(messages)
    ensures FramesOf(messages + [m]) == FramesOf(messages) + if m.Binary? then [m.frame] else []
  {
    if messages == [] {
      assert [m][1..] == [];
    } else {
      assert (messages + [m])[1..] == messages[1..] + [m];
      FramesOfSnoc(messages[1..], m);
    }
  }

  lemma {:induction false} NoFramesYet(log: seq<Entry>, clients: seq<Client>, c: nat)
    requires Known(log, clients) && c >= |clients|
    ensures FramesBy(log, c) == []
  {
    if log != [] {
      NoFramesYet(log[..|log| - 1], clients, c);
    }
  }

  lemma NewClientOk(s: State, topic: Topic, sink: nat)
    requires Inv(s)
    ensures ClientOk(s.log, s.commands, s.open, |s.clients|, Client(topic, sink, Reading, [], false))
  {
    NoFramesYet(s.log, s.clients, |s.clients|);
    NoFramesYet(s.commands, s.clients, |s.clients|);
  }

  lemma KnownWith(log: seq<Entry>, clients: seq<Client>, client: Client)
    requires Known(log, clients)
    ensures Known(log, clients + [client])
  {
  }

  lemma InvWith(s: State, client: Client, s': State)
    requires Inv(s) && s'.clients == s.clients + [client]
    requires s'.log == s.log && s'.commands == s.commands && s'.open == s.open
    requires ClientOk(s.log, s.commands, s.open, |s.clients|, client)
    ensures Inv(s')
  {
    KnownWith(s.log, s.clients, client);
    KnownWith(s.commands, s.clients, client);
  }

  lemma InvAfterConnect(s: State, topic: Topic)
    requires Inv(s)
    ensures Inv(Connected(s, topic))
  {
    var client := Connected(s, topic).clients[|s.clients|];
    NewClientOk(s, topic, client.sink);
    InvWith(s, client, Connected(s, topic));
  }

  /** Entries of others are nothing to a client. */
  lemma OkDespite(log: seq<Entry>, commands: seq<Entry>, open: bool, c: nat, client: Client, e: Entry)
    requires ClientOk(log, commands, open, c, client) && e.from != Some(c)
    ensures ClientOk(log + [e], commands, open, c, client)
    ensures ClientOk(log, commands + [e], open, c, client)
  {
    FramesBySnoc(log, e, c);
    FramesBySnoc(commands, e, c);
  }

  lemma OkAfterFrame(log: seq<Entry>, commands: seq<Entry>, open: bool, c: nat, client: Client, f: Octets)
    requires ClientOk(log, commands, open, c, client) && client.pc.Reading?
    ensures ClientOk(log + [Entry(Some(c), client.topic, f)], commands, open, c,
      client.(heard := client.heard + [Binary(f)], pc := Sending(f)))
  {
    FramesBySnoc(log, Entry(Some(c), client.topic, f), c);
    FramesOfSnoc(client.heard, Binary(f));
    assert FramesBy(commands, c) + [] == FramesBy(commands, c);
  }

  lemma OkAfterOther(log: seq<Entry>, commands: seq<Entry>, open: bool, c: nat, client: Client, m: WsMessage)
    requires ClientOk(log, commands, open, c, client) && client.pc.Reading? && !m.Binary?
    ensures ClientOk(log, commands, open, c,
      client.(heard := client.heard + [m], pc := if m.Ignored? then Reading else Ended))
  {
    FramesOfSnoc(client.heard, m);
    assert FramesOf(client.heard) + [] == FramesOf(client.heard);
  }

  lemma OkAfterSend(log: seq<Entry>, commands: seq<Entry>, c: nat, client: Client)
    requires ClientOk(log, commands, true, c, client) && client.pc.Sending?
    ensures ClientOk(log, commands + [Entry(Some(c), client.topic, client.pc.frame)], true, c, client.(pc := Reading))
  {
    FramesBySnoc(commands, Entry(Some(c), client.topic, client.pc.frame), c);
    assert FramesBy(log, c) + [] == FramesBy(log, c);
  }

  /** What one client does changes nothing for the others. */
  lemma ClientsOkAfter(s: State, s': State, c: nat, e: Entry)
    requires ClientsOk(s) && c < |s.clients| == |s'.clients| && s'.open == s.open && e.from == Some(c)
    requires forall d: nat | d < |s.clients| && d != c :: s'.clients[d] == s.clients[d]
    requires s'.log in {s.log, s.log + [e]} && s'.commands in {s.commands, s.commands + [e]}
    requires s'.log == s.log || s'.commands == s.commands
    requires ClientOk(s'.log, s'.commands, s'.open, c, s'.clients[c])
    ensures ClientsOk(s')
  {
    forall d: nat | d < |s'.clients| ensures ClientOk(s'.log, s'.commands, s'.open, d, s'.clients[d]) {
      if d != c {
        OkDespite(s.log, s.commands, s.open, d, s.clients[d], e);
      }
    }
  }

  lemma KnownAfter(log: seq<Entry>, clients: seq<Client>, clients': seq<Client>)
    requires Known(log, clients) && |clients| == |clients'|
    requires forall d: nat | d < |clients| :: clients'[d].topic == clients[d].topic
    ensures Known(log, clients')
    ensures forall c: nat, f: Octets | c < |clients| :: Known(log + [Entry(Some(c), clients[c].topic, f)], clients')
  {
  }

  lemma InvAfterFrame(s: State, c: nat, f: Octets)
    requires Inv(s) && c < |s.clients| && s.clients[c].pc.Reading?
    ensures Inv(Heard(s, c, Binary(f)))
  {
    var s', client := Heard(s, c, Binary(f)), s.clients[c];
    OkAfterFrame(s.log, s.commands, s.open, c, client, f);
    ClientsOkAfter(s, s', c, Entry(Some(c), client.topic, f));
    KnownAfter(s.log, s.clients, s'.clients);
    KnownAfter(s.commands, s.clients, s'.clients);
  }

  lemma InvAfterMessage(s: State, c: nat, m: WsMessage)
    requires Inv(s) && c < |s.clients| && s.clients[c].pc.Reading? && !m.Binary?
    ensures Inv(Heard(s, c, m))
  {
    var s', client := Heard(s, c, m), s.clients[c];
    OkAfterOther(s.log, s.commands, s.open, c, client, m);
    ClientsOkAfter(s, s', c, Entry(Some(c), client.topic, []));
    KnownAfter(s.log, s.clients, s'.clients);
    KnownAfter(s.commands, s.clients, s'.clients);
  }

  lemma InvAfterHandOver(s: State, c: nat)
    requires Inv(s) && c < |s.clients| && s.clients[c].pc.Sending? && s.open
    ensures Inv(Sent(s, c))
  {
    var s', client := Sent(s, c), s.clients[c];
    OkAfterSend(s.log, s.commands, c, client);
    ClientsOkAfter(s, s', c, Entry(Some(c), client.topic, client.pc.frame));
    KnownAfter(s.log, s.clients, s'.clients);
    KnownAfter(s.commands, s.clients, s'.clients);
  }

  lemma InvAfterRefusal(s: State, c: nat)
    requires Inv(s) && c < |s.clients| && s.clients[c].pc.Sending? && !s.open
    ensures Inv(Sent(s, c))
  {
    var s', client := Sent(s, c), s.clients[c];
    ClientsOkAfter(s, s', c, Entry(Some(c), client.topic, []));
    KnownAfter(s.log, s.clients, s'.clients);
    KnownAfter(s.commands, s.clients, s'.clients);
  }

  lemma InvAfterSend(s: State, c: nat)
    requires Inv(s) && c < |s.clients| && s.clients[c].pc.Sending?
    ensures Inv(Sent(s, c))
  {
    if s.open {
      InvAfterHandOver(s, c);
    } else {
      InvAfterRefusal(s, c);
    }
  }

  lemma InvAfterDrop(s: State, c: nat)
    requires Inv(s) && c < |s.clients| && !s.clients[c].pc.Sending?
    ensures Inv(Dropped(s, c))
  {
    var s', client := Dropped(s, c), s.clients[c];
    ClientsOkAfter(s, s', c, Entry(Some(c), client.topic, []));
    KnownAfter(s.log, s.clients, s'.clients);
    KnownAfter(s.commands, s.clients, s'.clients);
  }

  lemma InvAfterSwarm(s: State, topic: Topic, frame: Octets)
    requires Inv(s)
    ensures Inv(Broadcasts(s, Entry(None, topic, frame)))
    ensures Inv(s.(open := false))
  {
    var s' := Broadcasts(s, Entry(None, topic, frame));
    forall d: nat | d < |s.clients| ensures ClientOk(s'.log, s'.commands, s'.open, d, s'.clients[d]) {
      OkDespite(s.log, s.commands, s.open, d, s.clients[d], Entry(None, topic, frame));
    }
  }

  lemma InvAfterStep(s: State, step: Step, s': State)
    requires Inv(s) && Enabled(s, step) && s' == Apply(s, step)
    ensures Inv(s')
  {
    match step
    case Connect(topic) => InvAfterConnect(s, topic);
    case Hear(c, m) =>
      if m.Binary? {
        InvAfterFrame(s, c, m.frame);
      } else {
        InvAfterMessage(s, c, m);
      }
    case Send(c) => InvAfterSend(s, c);
    case Write(_) =>
    case Drop(c) => InvAfterDrop(s, c);
    case FromSwarm(topic, frame) => InvAfterSwarm(s, topic, frame);
    case SwarmEnds => InvAfterSwarm(s, "", []);
  }

  lemma {:induction false} RunInv(steps: seq<Step>)
    ensures Inv(Run(steps))
  {
    if steps != [] {
      var front, step := steps[..|steps| - 1], steps[|steps| - 1];
      RunInv(front);
      if Enabled(Run(front), step) {
        InvAfterStep(Run(front), step, Run(steps));
      }
    }
  }

  /** However the pumps interleave, each client's binary frames up to its close are broadcast once, in the
      order it sent them, and handed to the swarm once, in that order, except for at most a last one: the
      frame that is between its two steps, or that a closed channel refused. */
  lemma {:induction false} EachClientInOrder(steps: seq<Step>, c: nat)
    requires c < |Run(steps).clients|
    ensures var s, client := Run(steps), Run(steps).clients[c];
      && FramesBy(s.log, c) == FramesOf(client.heard)
      && FramesBy(s.commands, c) + Between(client.pc) == FramesOf(client.heard)
      && (client.pc.Refused? ==> !s.open)
  {
    RunInv(steps);
  }

  // ----- what the subscribers see -----

  /** The frames of one topic in a log, in order. */
  function FramesOn(log: seq<Entry>, t: Topic): seq<Octets> {
    if log == [] then []
    else FramesOn(log[..|log| - 1], t) + if log[|log| - 1].topic == t then [log[|log| - 1].frame] else []
  }

  lemma RegistrySnoc(ops: seq<Fanout.RegOp>, op: Fanout.RegOp, t: Topic)
    ensures Fanout.Run(ops + [op], true).LogOn(t) ==
            Fanout.Run(ops, true).LogOn(t) + if op.Broadcast? && op.topic == t then [op.frame] else []
  {
    assert (ops + [op])[..|ops|] == ops;
  }

  lemma FramesOnSnoc(log: seq<Entry>, e: Entry, t: Topic)
    ensures FramesOn(log + [e], t) == FramesOn(log, t) + if e.topic == t then [e.frame] else []
  {
  }

  /** The registry's log of a topic is what the log of all broadcasts has on it. */
  predicate LogOk(s: State, t: Topic) {
    Fanout.Run(s.registry, true).LogOn(t) == FramesOn(s.log, t)
  }

  lemma LogAfterBroadcast(s: State, s': State, e: Entry, t: Topic)
    requires LogOk(s, t) && s'.registry == s.registry + [Fanout.Broadcast(e.topic, e.frame)] && s'.log == s.log + [e]
    ensures LogOk(s', t)
  {
    RegistrySnoc(s.registry, Fanout.Broadcast(e.topic, e.frame), t);
    FramesOnSnoc(s.log, e, t);
  }

  lemma LogAfterQuiet(s: State, s': State, op: Fanout.RegOp, t: Topic)
    requires LogOk(s, t) && !op.Broadcast? && s'.registry == s.registry + [op] && s'.log == s.log
    ensures LogOk(s', t)
  {
    RegistrySnoc(s.registry, op, t);
  }

  /** A step adds the same to both. */
  lemma LogAfterStep(s: State, step: Step, s': State, t: Topic)
    requires LogOk(s, t) && Enabled(s, step) && s' == Apply(s, step)
    ensures LogOk(s', t)
  {
    match step
    case Connect(topic) => LogAfterQuiet(s, s', Fanout.Subscribe(topic, SINK_CAPACITY), t);
    case Hear(c, m) =>
      if m.Binary? {
        LogAfterBroadcast(s, s', Entry(Some(c), s.clients[c].topic, m.frame), t);
      } else {
        assert s'.registry == s.registry && s'.log == s.log;
      }
    case Send(_) => assert s'.registry == s.registry && s'.log == s.log;
    case Write(c) => LogAfterQuiet(s, s', Fanout.Read(s.clients[c].sink), t);
    case Drop(c) => LogAfterQuiet(s, s', Fanout.Release(s.clients[c].sink), t);
    case FromSwarm(topic, frame) => LogAfterBroadcast(s, s', Entry(None, topic, frame), t);
    case SwarmEnds =>
  }

  lemma {:induction false} LogIsAllBroadcasts(steps: seq<Step>, t: Topic)
    ensures LogOk(Run(steps), t)
  {
    if steps != [] {
      var front, step := steps[..|steps| - 1], steps[|steps| - 1];
      LogIsAllBroadcasts(front, t);
      if Enabled(Run(front), step) {
        LogAfterStep(Run(front), step, Run(steps), t);
      }
    }
  }

  /** And every subscriber of a topic, while it lives, is pushed that one sequence of broadcasts, clients'
      and swarm's, from where it came in; what it has written out is an in-order part of it. */
  lemma {:induction false} SubscribersHearOneOrder(steps: seq<Step>, id: nat)
    requires id < |Fanout.Run(Run(steps).registry, true).sinks|
    ensures var r, all := Fanout.Run(Run(steps).registry, true), Run(steps).log;
      var sink := r.sinks[id];
      var out, taken := Ring.RunSink(sink.cap, sink.ops).out, Ring.Taken(sink.cap, sink.ops);
      var on := FramesOn(all, sink.topic);
      && sink.since <= Fanout.End(r, sink) <= |on|
      && Ring.Frames(sink.ops) == on[sink.since..Fanout.End(r, sink)]
      && |out| == |taken| && Ring.Ascending(taken, Fanout.End(r, sink) - sink.since)
      && forall k | 0 <= k < |out| :: out[k] == on[sink.since..Fanout.End(r, sink)][taken[k]]
  {
    var s := Run(steps);
    LogIsAllBroadcasts(steps, Fanout.Run(s.registry, true).sinks[id].topic);
    Fanout.PushedIsTheLog(s.registry, true, id);
    Fanout.OneTotalOrder(s.registry, true, id);
  }

  /** Sinks keep their numbers, topics and capacities; only their own release ends them. */
  lemma SinksStay(ops: seq<Fanout.RegOp>, op: Fanout.RegOp, i: nat)
    requires i < |Fanout.Run(ops, true).sinks|
    ensures var sinks, sinks' := Fanout.Run(ops, true).sinks, Fanout.Run(ops + [op], true).sinks;
      && |sinks'| == |sinks| + (if op.Subscribe? then 1 else 0)
      && sinks'[i].topic == sinks[i].topic && sinks'[i].cap == sinks[i].cap
      && (sinks'[i].live <==> sinks[i].live && op != Fanout.Release(i))
  {
    var r := Fanout.Run(ops, true);
    assert (ops + [op])[..|ops|] == ops;
    if op.Broadcast? {
      Fanout.RunInv(ops, true);
      assert Fanout.ListOk(r, op.topic);
      Fanout.PushEachReaches(r.sinks, r.IdsOn(op.topic), op.frame, i);
    }
  }

  lemma SinkCount(ops: seq<Fanout.RegOp>, op: Fanout.RegOp)
    ensures |Fanout.Run(ops + [op], true).sinks| == |Fanout.Run(ops, true).sinks| + if op.Subscribe? then 1 else 0
  {
    assert (ops + [op])[..|ops|] == ops;
  }

  /** Client `c` writes from sink `c`, a live sink of its topic with the relay's capacity until it is gone. */
  predicate HasSink(sinks: seq<Fanout.SinkRec>, c: nat, client: Client) {
    && client.sink == c < |sinks| && sinks[c].topic == client.topic && sinks[c].cap == 128
    && (sinks[c].live <==> !client.gone)
  }

  predicate SinksOk(s: State) {
    var sinks := Fanout.Run(s.registry, true).sinks;
    |sinks| == |s.clients| && forall c: nat | c < |s.clients| :: HasSink(sinks, c, s.clients[c])
  }

  /** An operation that neither adds nor ends a sink. */
  lemma SinksOkAfter(s: State, s': State, op: Fanout.RegOp)
    requires SinksOk(s) && s'.registry == s.registry + [op] && (op.Broadcast? || op.Read?)
    requires |s'.clients| == |s.clients|
    requires forall c: nat | c < |s.clients| :: SameSink(s.clients[c], s'.clients[c])
    ensures SinksOk(s')
  {
    SinkCount(s.registry, op);
    forall c: nat | c < |s.clients| ensures HasSink(Fanout.Run(s'.registry, true).sinks, c, s'.clients[c]) {
      SinksStay(s.registry, op, c);
    }
  }

  predicate SameSink(a: Client, b: Client) {
    b.sink == a.sink && b.topic == a.topic && b.gone == a.gone
  }

  lemma SinksOkAfterConnect(s: State, topic: Topic)
    requires SinksOk(s)
    ensures SinksOk(Connected(s, topic))
  {
    var op, s' := Fanout.Subscribe(topic, SINK_CAPACITY), Connected(s, topic);
    SinkCount(s.registry, op);
    forall c: nat | c < |s'.clients| ensures HasSink(Fanout.Run(s'.registry, true).sinks, c, s'.clients[c]) {
      if c < |s.clients| {
        SinksStay(s.registry, op, c);
      } else {
        assert (s.registry + [op])[..|s.registry|] == s.registry;
      }
    }
  }

  lemma SinksOkAfterDrop(s: State, c: nat)
    requires SinksOk(s) && c < |s.clients|
    ensures SinksOk(Dropped(s, c))
  {
    var op, s' := Fanout.Release(s.clients[c].sink), Dropped(s, c);
    SinkCount(s.registry, op);
    forall d: nat | d < |s'.clients| ensures HasSink(Fanout.Run(s'.registry, true).sinks, d, s'.clients[d]) {
      assert HasSink(Fanout.Run(s.registry, true).sinks, d, s.clients[d]);
      SinksStay(s.registry, op, d);
    }
  }

  lemma SinksOkAfterStep(s: State, step: Step, s': State)
    requires SinksOk(s) && Enabled(s, step) && s' == Apply(s, step)
    ensures SinksOk(s')
  {
    match step
    case Connect(topic) => SinksOkAfterConnect(s, topic);
    case Hear(c, m) =>
      if m.Binary? {
        SinksOkAfter(s, s', Fanout.Broadcast(s.clients[c].topic, m.frame));
      }
    case Send(_) =>
    case Write(c) => SinksOkAfter(s, s', Fanout.Read(s.clients[c].sink));
    case Drop(c) => SinksOkAfterDrop(s, c);
    case FromSwarm(topic, frame) => SinksOkAfter(s, s', Fanout.Broadcast(topic, frame));
    case SwarmEnds =>
  }

  lemma {:induction false} RunSinksOk(steps: seq<Step>)
    ensures SinksOk(Run(steps))
  {
    if steps != [] {
      var front, step := steps[..|steps| - 1], steps[|steps| - 1];
      RunSinksOk(front);
      if Enabled(Run(front), step) {
        SinksOkAfterStep(Run(front), step, Run(steps));
      }
    }
  }

  /** The sink a client writes from and drops is a sink of its own topic with the relay's capacity, live
      while the client is there; every sink is one client's and no two clients share one, so each sink has
      one reader. */
  lemma {:induction false} ClientHasItsSink(steps: seq<Step>)
    ensures var sinks, clients := Fanout.Run(Run(steps).registry, true).sinks, Run(steps).clients;
      && |sinks| == |clients|
      && (forall c: nat | c < |clients| :: HasSink(sinks, c, clients[c]))
      && (forall c: nat, d: nat | c < d < |clients| :: clients[c].sink != clients[d].sink)
  {
    RunSinksOk(steps);
  }

  // ----- the run, from its steps -----

  /** What the swarm's own frames add to the log, from the steps alone. */
  function SwarmFrames(steps: seq<Step>): seq<Entry> {
    if steps == [] then []
    else
      SwarmFrames(steps[..|steps| - 1]) +
      match steps[|steps| - 1]
      case FromSwarm(topic, frame) => [Entry(None, topic, frame)]
      case _ => []
  }

  function FromNobody(log: seq<Entry>): seq<Entry> {
    if log == [] then []
    else FromNobody(log[..|log| - 1]) + if log[|log| - 1].from.None? then [log[|log| - 1]] else []
  }

  lemma FromNobodySnoc(log: seq<Entry>, e: Entry)
    ensures FromNobody(log + [e]) == FromNobody(log) + if e.from.None? then [e] else []
  {
  }

  /** Every frame that comes in from the swarm is broadcast, once and in order, whatever the clients do. */
  lemma {:induction false} SwarmFramesAreBroadcast(steps: seq<Step>)
    ensures FromNobody(Run(steps).log) == SwarmFrames(steps)
  {
    if steps != [] {
      var front, step := steps[..|steps| - 1], steps[|steps| - 1];
      SwarmFramesAreBroadcast(front);
      SwarmStep(Run(front), step);
    }
  }

  lemma SwarmStep(s: State, step: Step)
    ensures FromNobody(Apply(s, step).log) == FromNobody(s.log) +
      if step.FromSwarm? then [Entry(None, step.topic, step.frame)] else []
  {
    match step
    case FromSwarm(topic, frame) => FromNobodySnoc(s.log, Entry(None, topic, frame));
    case Hear(c, m) =>
      if Enabled(s, step) && m.Binary? {
        FromNobodySnoc(s.log, Entry(Some(c), s.clients[c].topic, m.frame));
      }
      assert FromNobody(s.log) + [] == FromNobody(s.log);
    case _ => assert FromNobody(s.log) + [] == FromNobody(s.log);
  }

  /** The topics that were connected to, in order. */
  function Topics(steps: seq<Step>): seq<Topic> {
    if steps == [] then []
    else Topics(steps[..|steps| - 1]) + if steps[|steps| - 1].Connect? then [steps[|steps| - 1].topic] else []
  }

  /** One client for each connection, on its topic, and gone only when dropped; the swarm's channel is open
      until the swarm ends. */
  predicate AsConnected(s: State, steps: seq<Step>) {
    && |s.clients| == |Topics(steps)| && (s.open <==> SwarmEnds !in steps)
    && forall c: nat | c < |s.clients| :: ClientAsConnected(s.clients[c], c, steps)
  }

  predicate ClientAsConnected(client: Client, c: nat, steps: seq<Step>) {
    c < |Topics(steps)| && client.topic == Topics(steps)[c] && (client.gone ==> Step.Drop(c) in steps)
  }

  lemma TopicsSnoc(steps: seq<Step>, step: Step)
    ensures Topics(steps + [step]) == Topics(steps) + if step.Connect? then [step.topic] else []
  {
  }

  lemma ConnectedAfterStep(s: State, steps: seq<Step>, step: Step)
    requires AsConnected(s, steps)
    ensures AsConnected(Apply(s, step), steps + [step])
  {
    var s', steps' := Apply(s, step), steps + [step];
    TopicsSnoc(steps, step);
    forall c: nat | c < |s'.clients| ensures ClientAsConnected(s'.clients[c], c, steps') {
      if c < |s.clients| {
        assert ClientAsConnected(s.clients[c], c, steps);
      }
    }
  }

  lemma {:induction false} ClientsAreConnects(steps: seq<Step>)
    ensures AsConnected(Run(steps), steps)
  {
    if steps != [] {
      var front, step := steps[..|steps| - 1], steps[|steps| - 1];
      ClientsAreConnects(front);
      ConnectedAfterStep(Run(front), front, step);
      assert steps == front + [step];
    }
  }

  /** A client that is there and has frames waiting writes the oldest; one that has none writes nothing. */
  lemma WriteGivesOldest(steps: seq<Step>, c: nat)
    requires c < |Topics(steps)| && c < |Run(steps).clients| && !Run(steps).clients[c].gone
    requires c < |Fanout.Run(Run(steps).registry, true).sinks|
    ensures var sink := Fanout.Run(Run(steps).registry, true).sinks[c];
      var sinks' := Fanout.Run(Run(steps + [Write(c)]).registry, true).sinks;
      && c < |sinks'|
      && var before, after := Ring.RunSink(sink.cap, sink.ops), Ring.RunSink(sinks'[c].cap, sinks'[c].ops);
         if before.queue == [] then after == before
         else after.out == before.out + [before.queue[0]] && after.queue == before.queue[1..]
  {
    RunSinksOk(steps);
    var s := Run(steps);
    assert (steps + [Write(c)])[..|steps|] == steps;
    assert HasSink(Fanout.Run(s.registry, true).sinks, c, s.clients[c]);
    assert (s.registry + [Fanout.Read(c)])[..|s.registry|] == s.registry;
    PopLast(Fanout.Run(s.registry, true).sinks[c]);
  }

  lemma PopLast(sink: Fanout.SinkRec)
    ensures var r := Ring.RunSink(sink.cap, sink.ops);
      Ring.RunSink(sink.cap, sink.ops + [Ring.Pop]) == Ring.StepSink(r, sink.cap, Ring.Pop)
  {
    assert (sink.ops + [Ring.Pop])[..|sink.ops|] == sink.ops;
  }

  // ----- a client that talks -----

  /** A step of the client's own loops other than hearing something that is ignored. */
  predicate IsOwn(step: Step, c: nat) {
    match step
    case Hear(d, m) => d == c && !m.Ignored?
    case Send(d) => d == c
    case Drop(d) => d == c
    case _ => false
  }

  function Own(steps: seq<Step>, c: nat): seq<Step> {
    if steps == [] then []
    else Own(steps[..|steps| - 1], c) + if IsOwn(steps[|steps| - 1], c) then [steps[|steps| - 1]] else []
  }

  /** Frame by frame: it is heard, then it is sent. */
  function Talk(c: nat, frames: seq<Octets>): (r: seq<Step>)
    ensures |r| == 2 * |frames|
  {
    seq(2 * |frames|, i requires 0 <= i < 2 * |frames| =>
      if i % 2 == 0 then Step.Hear(c, Binary(frames[i / 2])) else Step.Send(c))
  }

  /** `n` steps into the talk. */
  predicate TalkedTo(s: State, c: nat, frames: seq<Octets>, n: nat) {
    && c < |s.clients| && n <= 2 * |frames| && s.open
    && FramesBy(s.log, c) == frames[..(n + 1) / 2] && FramesBy(s.commands, c) == frames[..n / 2]
    && s.clients[c].pc == if n % 2 == 0 then Reading else Sending(frames[n / 2])
  }

  lemma TalkHears(s: State, c: nat, frames: seq<Octets>, n: nat)
    requires TalkedTo(s, c, frames, n) && n < 2 * |frames| && n % 2 == 0
    ensures TalkedTo(Apply(s, Step.Hear(c, Binary(frames[n / 2]))), c, frames, n + 1)
  {
    FramesBySnoc(s.log, Entry(Some(c), s.clients[c].topic, frames[n / 2]), c);
    assert frames[..n / 2] + [frames[n / 2]] == frames[..n / 2 + 1];
  }

  lemma TalkSends(s: State, c: nat, frames: seq<Octets>, n: nat)
    requires TalkedTo(s, c, frames, n) && n < 2 * |frames| && n % 2 == 1
    ensures TalkedTo(Apply(s, Step.Send(c)), c, frames, n + 1)
  {
    FramesBySnoc(s.commands, Entry(Some(c), s.clients[c].topic, frames[n / 2]), c);
    assert frames[..n / 2] + [frames[n / 2]] == frames[..n / 2 + 1];
  }

  lemma TalkDespite(s: State, step: Step, c: nat, frames: seq<Octets>, n: nat)
    requires TalkedTo(s, c, frames, n) && !IsOwn(step, c) && !step.SwarmEnds?
    ensures TalkedTo(Apply(s, step), c, frames, n)
  {
    match step
    case Hear(d, m) =>
      if Enabled(s, step) && m.Binary? {
        FramesBySnoc(s.log, Entry(Some(d), s.clients[d].topic, m.frame), c);
      }
    case Send(d) =>
      if Enabled(s, step) {
        FramesBySnoc(s.commands, Entry(Some(d), s.clients[d].topic, s.clients[d].pc.frame), c);
      }
    case FromSwarm(topic, frame) => FramesBySnoc(s.log, Entry(None, topic, frame), c);
    case _ =>
  }

  lemma RunAt(steps: seq<Step>, n: nat)
    requires n < |steps|
    ensures Run(steps[..n + 1]) == Apply(Run(steps[..n]), steps[n])
  {
    assert steps[..n + 1][..n] == steps[..n];
  }

  lemma OwnAt(steps: seq<Step>, i: nat, n: nat, c: nat)
    requires i <= n < |steps|
    ensures Own(steps[i..n + 1], c) == Own(steps[i..n], c) + if IsOwn(steps[n], c) then [steps[n]] else []
  {
    assert steps[i..n + 1][..n - i] == steps[i..n];
  }

  lemma {:induction false} OwnPrefix(steps: seq<Step>, i: nat, n: nat, c: nat)
    requires i <= n <= |steps|
    ensures Own(steps[i..n], c) <= Own(steps[i..], c)
    decreases |steps| - n
  {
    if n < |steps| {
      OwnAt(steps, i, n, c);
      OwnPrefix(steps, i, n + 1, c);
    } else {
      assert steps[i..n] == steps[i..];
    }
  }

  /** The client that connects at step `i` is number `c`, and its own steps from there on are this talk. */
  predicate Talks(steps: seq<Step>, i: nat, c: nat, frames: seq<Octets>) {
    && i < |steps| && steps[i].Connect? && |Topics(steps[..i])| == c
    && Own(steps[i + 1..], c) == Talk(c, frames) && SwarmEnds !in steps
  }

  predicate TalkedAt(steps: seq<Step>, i: nat, c: nat, frames: seq<Octets>, n: nat)
    requires i < n <= |steps|
  {
    TalkedTo(Run(steps[..n]), c, frames, |Own(steps[i + 1..n], c)|)
  }

  lemma {:induction false} TalkedSoFar(steps: seq<Step>, i: nat, c: nat, frames: seq<Octets>, n: nat)
    requires Talks(steps, i, c, frames) && i < n <= |steps|
    ensures TalkedAt(steps, i, c, frames, n)
  {
    if n == i + 1 {
      TalkedFirst(steps, i, c, frames);
    } else {
      TalkedSoFar(steps, i, c, frames, n - 1);
      TalkedNext(steps, i, c, frames, n - 1, n);
    }
  }

  lemma TalkedFirst(steps: seq<Step>, i: nat, c: nat, frames: seq<Octets>)
    requires Talks(steps, i, c, frames)
    ensures TalkedAt(steps, i, c, frames, i + 1)
  {
    RunAt(steps, i);
    assert SwarmEnds !in steps[..i];
    TalkStarts(steps[..i], steps[i].topic, c, frames);
    assert Own(steps[i + 1..i + 1], c) == [];
  }

  lemma TalkedNext(steps: seq<Step>, i: nat, c: nat, frames: seq<Octets>, n: nat, m: nat)
    requires Talks(steps, i, c, frames) && i < n < m == n + 1 <= |steps| && TalkedAt(steps, i, c, frames, n)
    ensures TalkedAt(steps, i, c, frames, m)
  {
    var own, own' := Own(steps[i + 1..n], c), Own(steps[i + 1..m], c);
    assert own' == own + (if IsOwn(steps[n], c) then [steps[n]] else []) && own' <= Talk(c, frames) by {
      OwnAt(steps, i + 1, n, c);
      OwnPrefix(steps, i + 1, m, c);
    }
    TalkStep(Run(steps[..n]), steps[n], c, frames, own, own');
    assert Run(steps[..m]) == Apply(Run(steps[..n]), steps[n]) by {
      RunAt(steps, n);
    }
  }

  lemma TalkStarts(steps: seq<Step>, topic: Topic, c: nat, frames: seq<Octets>)
    requires SwarmEnds !in steps && |Topics(steps)| == c
    ensures TalkedTo(Apply(Run(steps), Connect(topic)), c, frames, 0)
  {
    ClientsAreConnects(steps);
    RunInv(steps);
    NoFramesYet(Run(steps).log, Run(steps).clients, c);
    NoFramesYet(Run(steps).commands, Run(steps).clients, c);
  }

  lemma TalkOwnStep(s: State, step: Step, c: nat, frames: seq<Octets>, n: nat)
    requires TalkedTo(s, c, frames, n) && n < 2 * |frames| && step == Talk(c, frames)[n]
    ensures TalkedTo(Apply(s, step), c, frames, n + 1)
  {
    if n % 2 == 0 {
      TalkHears(s, c, frames, n);
    } else {
      TalkSends(s, c, frames, n);
    }
  }

  lemma TalkStep(s: State, step: Step, c: nat, frames: seq<Octets>, own: seq<Step>, own': seq<Step>)
    requires !step.SwarmEnds? && TalkedTo(s, c, frames, |own|)
    requires own' == own + (if IsOwn(step, c) then [step] else []) && own' <= Talk(c, frames)
    ensures TalkedTo(Apply(s, step), c, frames, |own'|)
  {
    if IsOwn(step, c) {
      assert step == own'[|own|] == Talk(c, frames)[|own|];
      TalkOwnStep(s, step, c, frames, |own|);
    } else {
      TalkDespite(s, step, c, frames, |own|);
    }
  }

  /** The client that connects at step `i` and then talks, frame by frame, while everybody else does
      anything in between: each of its frames is broadcast and handed to the swarm, as long as that lives. */
  lemma TalkIsRelayed(steps: seq<Step>, i: nat, c: nat, frames: seq<Octets>)
    requires Talks(steps, i, c, frames)
    ensures FramesBy(Run(steps).log, c) == frames && FramesBy(Run(steps).commands, c) == frames
  {
    TalkedSoFar(steps, i, c, frames, |steps|);
    assert steps[..|steps|] == steps && steps[i + 1..|steps|] == steps[i + 1..];
    assert frames[..|frames|] == frames;
  }

  /** After the swarm's end it is handed nothing more. */
  lemma {:induction false} NothingAfterTheEnd(steps: seq<Step>, i: nat)
    requires i <= |steps| && SwarmEnds in steps[..i]
    ensures Run(steps).commands == Run(steps[..i]).commands
  {
    if i < |steps| {
      var front := steps[..|steps| - 1];
      assert front[..i] == steps[..i];
      NothingAfterTheEnd(front, i);
      ClientsAreConnects(front);
    } else {
      assert steps[..i] == steps;
    }
  }

  /** A client that is dropped where its pumps wait leaves its sink dead. */
  lemma DropEndsTheSink(steps: seq<Step>, c: nat)
    requires c < |Run(steps).clients| && !Run(steps).clients[c].pc.Sending?
    ensures c < |Fanout.Run(Run(steps + [Step.Drop(c)]).registry, true).sinks|
    ensures !Fanout.Run(Run(steps + [Step.Drop(c)]).registry, true).sinks[c].live
  {
    var steps' := steps + [Step.Drop(c)];
    assert steps'[..|steps|] == steps;
    RunSinksOk(steps');
    assert HasSink(Fanout.Run(Run(steps').registry, true).sinks, c, Run(steps').clients[c]);
  }

  // ----- the order across clients -----

  function FromClients(log: seq<Entry>): seq<Entry> {
    if log == [] then []
    else FromClients(log[..|log| - 1]) + if log[|log| - 1].from.Some? then [log[|log| - 1]] else []
  }

  /** What the swarm was handed is a first part of what the clients' broadcasts here were, in order. */
  predicate SameOrder(s: State) {
    s.commands <= FromClients(s.log)
  }

  /** A log whose only client is number 0, from that client's frames. */
  function TaggedZero(topic: Topic, frames: seq<Octets>): (r: seq<Entry>)
    ensures |r| == |frames|
  {
    seq(|frames|, i requires 0 <= i < |frames| => Entry(Some(0), topic, frames[i]))
  }

  lemma {:induction false} OnlyClient(log: seq<Entry>, clients: seq<Client>)
    requires Known(log, clients) && |clients| == 1
    ensures FromClients(log) == TaggedZero(clients[0].topic, FramesBy(log, 0))
  {
    if log != [] {
      OnlyClient(log[..|log| - 1], clients);
    }
  }

  lemma {:induction false} AllFromClients(log: seq<Entry>)
    requires forall i | 0 <= i < |log| :: log[i].from.Some?
    ensures FromClients(log) == log
  {
    if log != [] {
      AllFromClients(log[..|log| - 1]);
    }
  }

  lemma {:induction false} NoClients(log: seq<Entry>)
    requires Known(log, [])
    ensures FromClients(log) == []
  {
    if log != [] {
      NoClients(log[..|log| - 1]);
    }
  }

  lemma OneClientOneOrder(steps: seq<Step>)
    requires |Run(steps).clients| <= 1
    ensures SameOrder(Run(steps))
  {
    var s := Run(steps);
    RunInv(steps);
    if s.clients == [] {
      AllFromClients(s.commands);
      NoClients(s.commands);
    } else {
      EachClientInOrder(steps, 0);
      OneClientOrder(s, FramesBy(s.commands, 0), FramesBy(s.log, 0));
    }
  }

  lemma OneClientOrder(s: State, part: seq<Octets>, whole: seq<Octets>)
    requires |s.clients| == 1 && Known(s.log, s.clients) && Known(s.commands, s.clients)
    requires forall i | 0 <= i < |s.commands| :: s.commands[i].from.Some?
    requires part == FramesBy(s.commands, 0) && whole == FramesBy(s.log, 0) && part <= whole
    ensures SameOrder(s)
  {
    AllFromClients(s.commands);
    OnlyClient(s.log, s.clients);
    OnlyClient(s.commands, s.clients);
    TaggedPrefix(s.clients[0].topic, part, whole);
  }

  lemma TaggedPrefix(topic: Topic, part: seq<Octets>, whole: seq<Octets>)
    requires part <= whole
    ensures TaggedZero(topic, part) <= TaggedZero(topic, whole)
  {
    assert TaggedZero(topic, whole)[..|part|] == TaggedZero(topic, part);
  }

  /** Extends a run whose state is known by one step. */
  lemma Extend(steps: seq<Step>, s: State, step: Step) returns (steps': seq<Step>)
    requires Run(steps) == s
    ensures steps' == steps + [step] && Run(steps') == Apply(s, step)
  {
    steps' := steps + [step];
    assert steps'[..|steps|] == steps;
  }

  /** Two clients' pumps between their two steps at once: the second one's frame gets to the swarm first. */
  lemma OrdersCanDiffer(t: Topic, a: Octets, b: Octets) returns (steps: seq<Step>)
    ensures var s := Run(steps);
      && |s.clients| == 2
      && s.log == [Entry(Some(0), t, a), Entry(Some(1), t, b)]
      && s.commands == [Entry(Some(1), t, b), Entry(Some(0), t, a)]
  {
    steps := Extend([], Run([]), Connect(t));
    steps := Extend(steps, Run(steps), Connect(t));
    steps := Extend(steps, Run(steps), Hear(0, Binary(a)));
    steps := Extend(steps, Run(steps), Hear(1, Binary(b)));
    steps := Extend(steps, Run(steps), Send(1));
    steps := Extend(steps, Run(steps), Send(0));
  }

  /** The swarm is handed the clients' frames in the order the subscribers here got them, in every run
      with at most `n` clients, exactly when that is at most one. */
  lemma SameOrderIff(n: nat)
    ensures (forall steps | |Run(steps).clients| <= n :: SameOrder(Run(steps))) <==> n <= 1
  {
    if n <= 1 {
      forall steps | |Run(steps).clients| <= n ensures SameOrder(Run(steps)) {
        OneClientOneOrder(steps);
      }
    } else {
      var steps := OrdersCanDiffer("t", [0], [1]);
      var s := Run(steps);
      assert s.commands[0] != s.log[0];
      AllFromClients(s.log);
    }
  }
}
