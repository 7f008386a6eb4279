/** What a sequence of calls makes of the plugin, as a function of the calls: its identity, its tables, its
    stored record, and for each topic the run of the outbox and of the receive queue it amounts to. */
module Plugin {
  import opened Bytes
  import opened Utf8
  import opened Me
  import opened Platform
  import opened Identity
  import opened Chat
  import opened Net
  import opened App
  import Outbox
  import Rx

  /** How the loading steps of an init go: the key that is minted if none is stored, whether its save
      succeeds, and whether everything else does. */
  datatype Load = Load(minted: Key, saved: bool, rest: bool)

  /** The first two are the network's doing, the last two the browser's. */
  datatype Call =
    | EventsArrive(events: seq<NetEvent>)
    | ChannelCloses
    | Init(topics: seq<Topic>, load: Load, overlaysOk: bool)
    | Publish(topic: Topic, bs: Octets)
    | Say(value: Text, now: nat)
    | Subscribe(topic: Topic)
    | Login(msg: LoginMessage)
    | Pump
    | CountPending(topic: Topic)
    | Receive(topic: Topic)
    | SaveEnds(index: nat, stored: bool)
    | Reload

  /** What IndexedDB holds, and the snapshots whose saves are under way. */
  datatype Disk = Disk(key: Option<Key>, bindings: seq<SignedBinding>, saving: seq<seq<SignedBinding>>)

  /** `key` is there once there is a net; `polled` is every event polled since the page was loaded. */
  datatype State = State(
    disk: Disk,
    key: Option<Key>,
    up: bool,
    incoming: seq<NetEvent>,
    polled: seq<NetEvent>,
    bindings: seq<SignedBinding>,
    table: Table,
    history: seq<ChatEntry>)

  // ----- the disk -----

  /** An init that finds no key mints one and saves it. */
  function Minted(disk: Disk, load: Load): Disk {
    if disk.key.None? && load.saved then disk.(key := Some(load.minted)) else disk
  }

  /** What an init gets from the disk, if it gets that far. */
  function Loaded(disk: Disk, load: Load): Option<Boot> {
    if load.rest && disk.key.Some? then Some(Boot(disk.key.value, HexOf(disk.key.value), disk.bindings)) else None
  }

  function SaveEnded(disk: Disk, i: nat, stored: bool): Disk {
    if i >= |disk.saving| then disk
    else Disk(disk.key, if stored then disk.saving[i] else disk.bindings, disk.saving[..i] + disk.saving[i + 1..])
  }

  // ----- the state -----

  function Fresh(disk: Disk): State {
    State(disk.(saving := []), None, false, [], [], [], map[], [])
  }

  predicate Guarded(topics: seq<Topic>) {
    exists i | 0 <= i < |topics| :: IsInternal(topics[i])
  }

  predicate Polls(c: Call) {
    c.Pump? || c.CountPending? || c.Receive?
  }

  /** The hex of the key is the peer id shown in plaintext chat. */
  function IdOf(key: Option<Key>): Octets {
    if key.Some? then HexOf(key.value) else []
  }

  function SelfOf(s: State): Self {
    Self(s.key, IdOf(s.key), HISTORY_CAP)
  }

  /** The events of a batch, received one by one. */
  function Received(env: Platform, s: State): Inbox {
    ReceiveAll(env, SelfOf(s), Inbox(s.table, s.history, []), s.incoming)
  }

  function Polled(env: Platform, s: State): State {
    var after := Received(env, s);
    s.(incoming := [], polled := s.polled + s.incoming, table := after.table, history := after.history)
  }

  /** A net of a repeated init starts empty; what the old one still held is never polled. */
  function Booted(s: State, boot: Boot): State {
    var table := if boot.bindings == [] then s.table else s.table[boot.key := boot.bindings];
    s.(key := Some(boot.key), up := true, incoming := [], bindings := boot.bindings, table := table)
  }

  /** What this init boots with, if it comes to that. */
  function BootBy(s: State, topics: seq<Topic>, load: Load): Option<Boot> {
    if Guarded(topics) then None else Loaded(Minted(s.disk, load), load)
  }

  function Initialized(s: State, topics: seq<Topic>, load: Load): State {
    var minted := if Guarded(topics) then s else s.(disk := Minted(s.disk, load));
    match BootBy(s, topics, load)
    case None => minted
    case Some(boot) => Booted(minted, boot)
  }

  /** Whether a topic is meshed, from the events alone. */
  predicate MeshedOn(polled: seq<NetEvent>, t: Topic) {
    Outbox.PeersAfterAll({}, t, polled) != {}
  }

  /** The line that Enter sends, signed; none for an empty one. */
  function SayWire(env: Platform, key: Option<Key>, value: Text, now: nat): Option<Octets> {
    if value == [] then None else SignedLine(env, key, LongestValid(value, MAX_BODY_BYTES), now)
  }

  function Said(env: Platform, s: State, meshed: bool, value: Text, now: nat): State {
    var body := LongestValid(value, MAX_BODY_BYTES);
    if value != [] && ChatAnswer(env, s.key, meshed, s.up, body, now).Ok?
    then s.(history := LastN(s.history + [MyLine(body)], HISTORY_CAP))
    else s
  }

  /** The binding of a login message that passes every guard. */
  function Accepted(env: Platform, key: Option<Key>, msg: LoginMessage): Option<SignedBinding> {
    if msg.Link? && msg.signed.Some? && key.Some? && LoginAccepted(env, key.value, msg.signed.value) then msg.signed
    else None
  }

  function LoggedInBy(env: Platform, s: State, msg: LoginMessage): State {
    match Accepted(env, s.key, msg)
    case None => s
    case Some(b) =>
      var next := LoggedIn(s.bindings, b);
      s.(bindings := next, table := s.table[s.key.value := next], disk := s.disk.(saving := s.disk.saving + [next]))
  }

  function After(env: Platform, s: State, c: Call): State {
    match c
    case EventsArrive(events) => if s.key.Some? then s.(incoming := s.incoming + events) else s
    case ChannelCloses => s.(up := false)
    case Init(topics, load, _) => Initialized(s, topics, load)
    case Publish(_, _) => s
    case Say(value, now) => Said(env, s, MeshedOn(s.polled, CHAT_TOPIC), value, now)
    case Subscribe(_) => s
    case Login(msg) => LoggedInBy(env, s, msg)
    case Pump => Polled(env, s)
    case CountPending(_) => Polled(env, s)
    case Receive(_) => Polled(env, s)
    case SaveEnds(i, stored) => s.(disk := SaveEnded(s.disk, i, stored))
    case Reload => Fresh(s.disk)
  }

  /** The state after these calls, on a browser that has nothing stored. */
  function StateOf(env: Platform, calls: seq<Call>): State {
    if calls == [] then Fresh(Disk(None, [], []))
    else After(env, StateOf(env, calls[..|calls| - 1]), calls[|calls| - 1])
  }

  // ----- each topic's outbox -----

  /** The self bindings go to the identity topic, if there are any and they encode. */
  function AnnounceOps(env: Platform, t: Topic, bs: seq<SignedBinding>): seq<Outbox.Op> {
    if t == IDENTITY_TOPIC && bs != [] && env.encodeBindings(bs).Some?
    then [Outbox.Publish(env.encodeBindings(bs).value)]
    else []
  }

  function SayOps(t: Topic, wire: Option<Octets>): seq<Outbox.Op> {
    if t == CHAT_TOPIC && wire.Some? then [Outbox.Publish(wire.value)] else []
  }

  /** The first net's channel comes up, or a repeated init's; then the loaded bindings are announced. */
  function InitOps(env: Platform, s: State, t: Topic, c: Call): seq<Outbox.Op>
    requires c.Init?
  {
    match BootBy(s, c.topics, c.load)
    case None => []
    case Some(boot) => [Outbox.SetUp(true)] + if c.overlaysOk then AnnounceOps(env, t, boot.bindings) else []
  }

  /** What a call in this state does to a topic's outbox. */
  function OpsBy(env: Platform, s: State, c: Call, t: Topic): seq<Outbox.Op> {
    match c
    case ChannelCloses => [Outbox.SetUp(false)]
    case Init(_, _, _) => InitOps(env, s, t, c)
    case Publish(topic, bs) => if topic == t && !IsInternal(t) then [Outbox.Publish(bs)] else []
    case Say(value, now) => SayOps(t, SayWire(env, s.key, value, now))
    case Login(msg) =>
      (match Accepted(env, s.key, msg)
       case None => []
       case Some(b) => AnnounceOps(env, t, LoggedIn(s.bindings, b)))
    case Pump => [Outbox.Deliver(s.incoming)]
    case CountPending(_) => [Outbox.Deliver(s.incoming)]
    case Receive(_) => [Outbox.Deliver(s.incoming)]
    case _ => []
  }

  /** What the calls since the page was last loaded did to a topic's outbox, in order. */
  function OpsOf(env: Platform, calls: seq<Call>, t: Topic): seq<Outbox.Op> {
    if calls == [] || calls[|calls| - 1].Reload? then []
    else
      var front := calls[..|calls| - 1];
      OpsOf(env, front, t) + OpsBy(env, StateOf(env, front), calls[|calls| - 1], t)
  }

  // ----- each topic's receive queue -----

  function RxOpsBy(env: Platform, s: State, c: Call, t: Topic): seq<Rx.RxOp> {
    Rx.Arrivals(Arriving(env, s, c, t)) + if c.Receive? && c.topic == t then [Rx.Receive] else []
  }

  function RxOpsOf(env: Platform, calls: seq<Call>, t: Topic): seq<Rx.RxOp> {
    if calls == [] || calls[|calls| - 1].Reload? then []
    else
      var front := calls[..|calls| - 1];
      RxOpsOf(env, front, t) + RxOpsBy(env, StateOf(env, front), calls[|calls| - 1], t)
  }

  // ----- one call, one topic -----

  /** What a call does to a topic's box. */
  function BoxAfter(env: Platform, s: State, c: Call, t: Topic, b: Outbox.Box): Outbox.Box {
    match c
    case ChannelCloses => b.(up := false)
    case Init(topics, load, overlaysOk) =>
      (match BootBy(s, topics, load)
       case None => b
       case Some(boot) => if overlaysOk then Announced(env, t, b.(up := true), boot.bindings) else b.(up := true))
    case Publish(topic, bs) => if t == topic && !IsInternal(t) then Outbox.Offer(b, bs) else b
    case Say(value, now) =>
      var wire := SayWire(env, s.key, value, now);
      if t == CHAT_TOPIC && wire.Some? then Outbox.Offer(b, wire.value) else b
    case Login(msg) =>
      (match Accepted(env, s.key, msg)
       case None => b
       case Some(binding) => Announced(env, t, b, LoggedIn(s.bindings, binding)))
    case Pump => Outbox.Drain(b, t, s.incoming)
    case CountPending(_) => Outbox.Drain(b, t, s.incoming)
    case Receive(_) => Outbox.Drain(b, t, s.incoming)
    case _ => b
  }

  lemma OneStep(b: Outbox.Box, t: Topic, op: Outbox.Op)
    ensures Outbox.Steps(b, t, [op]) == Outbox.Step(b, t, op)
  {
    assert [op][..0] == [];
  }

  lemma InitSteps(env: Platform, s: State, c: Call, t: Topic, b: Outbox.Box)
    requires c.Init?
    ensures Outbox.Steps(b, t, InitOps(env, s, t, c)) == BoxAfter(env, s, c, t, b)
  {
    var boot := BootBy(s, c.topics, c.load);
    if boot.Some? {
      OneStep(b, t, Outbox.SetUp(true));
      var announce := AnnounceOps(env, t, boot.value.bindings);
      var ops := InitOps(env, s, t, c);
      if c.overlaysOk && |announce| == 1 {
        assert ops == [Outbox.SetUp(true), announce[0]] && ops[..1] == [Outbox.SetUp(true)];
      } else {
        assert ops == [Outbox.SetUp(true)];
      }
    }
  }

  /** The operations of a call, carried out one after the other, do just that. */
  lemma OpsDo(env: Platform, s: State, c: Call, t: Topic, b: Outbox.Box)
    ensures Outbox.Steps(b, t, OpsBy(env, s, c, t)) == BoxAfter(env, s, c, t, b)
  {
    var ops := OpsBy(env, s, c, t);
    if c.Init? {
      InitSteps(env, s, c, t, b);
    } else if |ops| == 1 {
      OneStep(b, t, ops[0]);
      assert ops == [ops[0]];
    }
  }

  function Arriving(env: Platform, s: State, c: Call, t: Topic): seq<Octets> {
    if Polls(c) then HostBytes(env, s.incoming, t) else []
  }

  /** What a call does to a topic's receive queue, and to what the host has read of it. */
  function RxAfter(env: Platform, s: State, c: Call, t: Topic, r: Rx.RxRun): Rx.RxRun {
    var queue := r.queue + Arriving(env, s, c, t);
    if c.Receive? && c.topic == t then Rx.RxRun(Rx.RecvRest(queue), r.read + Rx.Split(Rx.RecvBuffer(queue)))
    else Rx.RxRun(queue, r.read)
  }
}
