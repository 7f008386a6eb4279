/** Whole sessions of the plugin as an object: any sequence of calls, with whatever the network and the
    browser do between them, leaves it in the state that `Plugin` computes from the calls. */
module Session {
  import opened Bytes
  import opened Utf8
  import opened Platform
  import opened Identity
  import opened Net
  import opened App
  import opened Chat
  import opened Plugin
  import opened PluginRuns
  import Outbox
  import Rx

  /** The object is in this state, as far as it is not a matter of topics. */
  ghost predicate StateIs(a: AppState, s: State)
    reads a, a.NetSet(), a.bindings, a.chat
  {
    && a.Valid() && a.chat.cap == HISTORY_CAP
    && a.selfKey == s.key && a.selfId == IdOf(s.key) && a.Open() == s.up && a.Incoming() == s.incoming
    && a.selfBindings == s.bindings && a.bindings.entries == s.table && a.chat.history == s.history
  }

  ghost predicate BoxesAre(a: AppState, calls: seq<Call>)
    reads a, a.NetSet()
  {
    forall t :: a.BoxOf(t) == Outbox.Run(t, OpsOf(a.env, calls, t))
  }

  ghost predicate QueuesAre(a: AppState, read: map<Topic, seq<Octets>>, calls: seq<Call>)
    reads a, a.rx
  {
    forall t :: Rx.RxRun(a.rx.Queue(t), Rx.QueueIn(read, t)) == Rx.RunRx(RxOpsOf(a.env, calls, t))
  }

  /** The plugin's state, the disk, every topic's box and queue, and what the host has read are those of
      the calls. */
  ghost predicate Served(a: AppState, read: map<Topic, seq<Octets>>, disk: Disk, calls: seq<Call>)
    reads a, a.NetSet(), a.bindings, a.chat, a.rx
  {
    && StateIs(a, StateOf(a.env, calls)) && disk == StateOf(a.env, calls).disk
    && BoxesAre(a, calls) && QueuesAre(a, read, calls)
  }

  // ----- one call -----

  method PerformArrive(a: AppState, events: seq<NetEvent>, ghost s: State)
    requires StateIs(a, s)
    modifies a.NetSet()`events
    ensures StateIs(a, if s.key.Some? then s.(incoming := s.incoming + events) else s)
    ensures forall t :: a.BoxOf(t) == old(a.BoxOf(t))
  {
    if a.net != null {
      a.net.Arrive(events);
    }
    assert a.Log() == old(a.Log());
    assert forall t :: a.BoxOf(t) == old(a.BoxOf(t));
  }

  method PerformClose(a: AppState, ghost s: State)
    requires StateIs(a, s)
    modifies a.NetSet()`open
    ensures StateIs(a, s.(up := false))
    ensures forall t :: a.BoxOf(t) == old(a.BoxOf(t)).(up := false)
  {
    if a.net != null {
      a.net.Close();
    }
    assert a.Log() == old(a.Log());
    assert forall t :: a.BoxOf(t) == old(a.BoxOf(t)).(up := false);
  }

  method PerformPublish(a: AppState, topic: Topic, bs: Octets, ghost s: State)
    requires StateIs(a, s)
    modifies a`pendingSends, a.NetSet()`log
    ensures StateIs(a, s)
    ensures forall t ::
              a.BoxOf(t) ==
              if t == topic && !IsInternal(t) then Outbox.Offer(old(a.BoxOf(t)), bs) else old(a.BoxOf(t))
  {
    var r := a.PublishInner(topic, bs);
  }

  method PerformSay(a: AppState, value: Text, now: nat, ghost s: State)
    requires StateIs(a, s)
    modifies a`pendingSends, a.NetSet()`log, a.chat
    ensures StateIs(a, Said(a.env, s, old(a.BoxOf(CHAT_TOPIC)).Meshed(), value, now))
    ensures var wire := SayWire(a.env, s.key, value, now);
      forall t ::
        a.BoxOf(t) ==
        if t == CHAT_TOPIC && wire.Some? then Outbox.Offer(old(a.BoxOf(t)), wire.value) else old(a.BoxOf(t))
  {
    var r := a.SubmitChat(value, now);
  }

  method PerformSubscribe(a: AppState, topic: Topic, ghost s: State)
    requires StateIs(a, s)
    modifies a.NetSet()`log
    ensures StateIs(a, s)
    ensures forall t :: a.BoxOf(t) == old(a.BoxOf(t))
  {
    var r := a.SubscribeOpaque(topic);
  }

  /** An accepted login's snapshot starts to be saved. */
  method PerformLogin(a: AppState, disk: Disk, msg: LoginMessage, ghost s: State) returns (disk': Disk)
    requires StateIs(a, s) && disk == s.disk
    modifies a`selfBindings, a`pendingSends, a.NetSet()`log, a.bindings
    ensures StateIs(a, LoggedInBy(a.env, s, msg)) && disk' == LoggedInBy(a.env, s, msg).disk
    ensures forall t ::
              a.BoxOf(t) ==
              if Accepted(a.env, s.key, msg).Some? then Announced(a.env, t, old(a.BoxOf(t)), a.selfBindings)
              else old(a.BoxOf(t))
  {
    ghost var b := Accepted(a.env, s.key, msg);
    var r, snapshot := a.HandleLoginMessage(msg);
    assert snapshot.Some? <==> b.Some?;
    assert b.Some? ==> b == msg.signed && snapshot.value == a.selfBindings == LoggedIn(s.bindings, b.value);
    disk' := if snapshot.Some? then disk.(saving := disk.saving + [snapshot.value]) else disk;
  }

  method PerformInit(a: AppState, disk: Disk, c: Call, ghost s: State) returns (disk': Disk)
    requires StateIs(a, s) && disk == s.disk && c.Init?
    modifies a, a.NetSet()`log, a.bindings
    ensures StateIs(a, Initialized(s, c.topics, c.load)) && disk' == Initialized(s, c.topics, c.load).disk
    ensures a.net == old(a.net) || fresh(a.net)
    ensures forall t :: a.BoxOf(t) == BoxAfter(a.env, s, c, t, old(a.BoxOf(t)))
  {
    disk' := if Guarded(c.topics) then disk else Minted(disk, c.load);
    var boot := if Guarded(c.topics) then None else Loaded(disk', c.load);
    var r := a.InitInner(c.topics, boot, c.overlaysOk);
    assert a.BoxOf("").up == a.Open();
  }

  method PerformPump(a: AppState, ghost s: State)
    requires StateIs(a, s)
    modifies a`topicPeers, a`pendingSends, a.NetSet(), a.rx, a.chat, a.bindings
    ensures StateIs(a, Polled(a.env, s))
    ensures forall t :: a.BoxOf(t) == Outbox.Drain(old(a.BoxOf(t)), t, s.incoming)
    ensures forall t :: a.rx.Queue(t) == old(a.rx.Queue(t)) + HostBytes(a.env, s.incoming, t)
  {
    a.DrainNetEvents();
    assert a.BoxOf("").up == a.Open();
  }

  method PerformCount(a: AppState, topic: Topic, ghost s: State)
    requires StateIs(a, s)
    modifies a`topicPeers, a`pendingSends, a.NetSet(), a.rx, a.chat, a.bindings
    ensures StateIs(a, Polled(a.env, s))
    ensures forall t :: a.BoxOf(t) == Outbox.Drain(old(a.BoxOf(t)), t, s.incoming)
    ensures forall t :: a.rx.Queue(t) == old(a.rx.Queue(t)) + HostBytes(a.env, s.incoming, t)
  {
    var n := a.PendingBytes(topic);
    assert a.BoxOf("").up == a.Open();
  }

  /** The host splits what it gets into frames, as `Rx.SplitFrames` does. */
  method PerformReceive(a: AppState, topic: Topic, ghost s: State) returns (frames: seq<Octets>)
    requires StateIs(a, s)
    modifies a`topicPeers, a`pendingSends, a.NetSet(), a.rx, a.chat, a.bindings
    ensures StateIs(a, Polled(a.env, s))
    ensures forall t :: a.BoxOf(t) == Outbox.Drain(old(a.BoxOf(t)), t, s.incoming)
    ensures var q := old(a.rx.Queue(topic)) + HostBytes(a.env, s.incoming, topic);
      frames == Rx.Split(Rx.RecvBuffer(q)) && a.rx.Queue(topic) == Rx.RecvRest(q)
    ensures forall t | t != topic :: a.rx.Queue(t) == old(a.rx.Queue(t)) + HostBytes(a.env, s.incoming, t)
  {
    var buffer := a.RecvBytes(topic);
    frames := Rx.Split(buffer);
    assert a.BoxOf("").up == a.Open();
  }

  /** Calls that neither poll nor touch the disk. */
  predicate Plain(c: Call) {
    c.EventsArrive? || c.ChannelCloses? || c.Publish? || c.Say? || c.Subscribe?
  }

  method PerformPlain(a: AppState, c: Call, ghost s: State)
    requires StateIs(a, s) && Plain(c)
    requires a.BoxOf(CHAT_TOPIC).Meshed() <==> MeshedOn(s.polled, CHAT_TOPIC)
    modifies a`pendingSends, a.NetSet(), a.chat
    ensures StateIs(a, After(a.env, s, c)) && After(a.env, s, c).disk == s.disk
    ensures forall t :: a.BoxOf(t) == BoxAfter(a.env, s, c, t, old(a.BoxOf(t)))
  {
    match c {
      case EventsArrive(events) => PerformArrive(a, events, s);
      case ChannelCloses => PerformClose(a, s);
      case Publish(topic, bs) => PerformPublish(a, topic, bs, s);
      case Say(value, now) => PerformSay(a, value, now, s);
      case Subscribe(topic) => PerformSubscribe(a, topic, s);
    }
  }

  method PerformQuiet(a: AppState, disk: Disk, c: Call, ghost s: State) returns (disk': Disk)
    requires StateIs(a, s) && disk == s.disk && !Polls(c) && !c.Reload?
    requires a.BoxOf(CHAT_TOPIC).Meshed() <==> MeshedOn(s.polled, CHAT_TOPIC)
    modifies a, a.NetSet(), a.chat, a.bindings
    ensures StateIs(a, After(a.env, s, c)) && disk' == After(a.env, s, c).disk
    ensures a.net == old(a.net) || fresh(a.net)
    ensures forall t :: a.BoxOf(t) == BoxAfter(a.env, s, c, t, old(a.BoxOf(t)))
  {
    disk' := disk;
    if Plain(c) {
      PerformPlain(a, c, s);
    } else {
      match c {
        case Init(_, _, _) => disk' := PerformInit(a, disk, c, s);
        case Login(msg) => disk' := PerformLogin(a, disk, msg, s);
        case SaveEnds(i, stored) => disk' := SaveEnded(disk, i, stored);
      }
    }
  }

  lemma JustArrives(env: Platform, s: State, c: Call, t: Topic, q: seq<Octets>, read: seq<Octets>)
    requires Polls(c)
    ensures !(c.Receive? && c.topic == t) ==>
      RxAfter(env, s, c, t, Rx.RxRun(q, read)) == Rx.RxRun(q + HostBytes(env, s.incoming, t), read)
    ensures c.Receive? && c.topic == t ==>
      var all := q + HostBytes(env, s.incoming, t);
      RxAfter(env, s, c, t, Rx.RxRun(q, read)) == Rx.RxRun(Rx.RecvRest(all), read + Rx.Split(Rx.RecvBuffer(all)))
  {
  }

  method PerformReading(a: AppState, read: map<Topic, seq<Octets>>, c: Call, ghost s: State)
    returns (read': map<Topic, seq<Octets>>)
    requires StateIs(a, s) && c.Receive?
    modifies a`topicPeers, a`pendingSends, a.NetSet(), a.rx, a.chat, a.bindings
    ensures StateIs(a, Polled(a.env, s))
    ensures forall t :: a.BoxOf(t) == Outbox.Drain(old(a.BoxOf(t)), t, s.incoming)
    ensures forall t :: QueueAndRead(a, read', t) == RxAfter(a.env, s, c, t, old(QueueAndRead(a, read, t)))
  {
    var frames := PerformReceive(a, c.topic, s);
    read' := read[c.topic := Rx.QueueIn(read, c.topic) + frames];
    forall t ensures QueueAndRead(a, read', t) == RxAfter(a.env, s, c, t, old(QueueAndRead(a, read, t))) {
      JustArrives(a.env, s, c, t, old(a.rx.Queue(t)), Rx.QueueIn(read, t));
    }
  }

  method PerformPolling(a: AppState, read: map<Topic, seq<Octets>>, c: Call, ghost s: State)
    returns (read': map<Topic, seq<Octets>>)
    requires StateIs(a, s) && Polls(c)
    modifies a`topicPeers, a`pendingSends, a.NetSet(), a.rx, a.chat, a.bindings
    ensures StateIs(a, Polled(a.env, s))
    ensures forall t :: a.BoxOf(t) == Outbox.Drain(old(a.BoxOf(t)), t, s.incoming)
    ensures forall t :: QueueAndRead(a, read', t) == RxAfter(a.env, s, c, t, old(QueueAndRead(a, read, t)))
  {
    read' := read;
    if c.Receive? {
      read' := PerformReading(a, read, c, s);
    } else {
      match c {
        case Pump => PerformPump(a, s);
        case CountPending(topic) => PerformCount(a, topic, s);
      }
      forall t ensures QueueAndRead(a, read', t) == RxAfter(a.env, s, c, t, old(QueueAndRead(a, read, t))) {
        JustArrives(a.env, s, c, t, old(a.rx.Queue(t)), Rx.QueueIn(read, t));
      }
    }
  }

  ghost function QueueAndRead(a: AppState, read: map<Topic, seq<Octets>>, t: Topic): Rx.RxRun
    reads a.rx
  {
    Rx.RxRun(a.rx.Queue(t), Rx.QueueIn(read, t))
  }

  method PerformAny(a: AppState, read: map<Topic, seq<Octets>>, disk: Disk, c: Call, ghost s: State)
    returns (read': map<Topic, seq<Octets>>, disk': Disk)
    requires StateIs(a, s) && disk == s.disk && !c.Reload?
    requires a.BoxOf(CHAT_TOPIC).Meshed() <==> MeshedOn(s.polled, CHAT_TOPIC)
    modifies a, a.NetSet(), a.rx, a.chat, a.bindings
    ensures StateIs(a, After(a.env, s, c)) && disk' == After(a.env, s, c).disk
    ensures a.net == old(a.net) || fresh(a.net)
    ensures forall t :: a.BoxOf(t) == BoxAfter(a.env, s, c, t, old(a.BoxOf(t)))
    ensures forall t :: QueueAndRead(a, read', t) == RxAfter(a.env, s, c, t, old(QueueAndRead(a, read, t)))
  {
    if Polls(c) {
      read' := PerformPolling(a, read, c, s);
      disk' := disk;
    } else {
      disk' := PerformQuiet(a, disk, c, s);
      read' := read;
      forall t ensures QueueAndRead(a, read, t) == RxAfter(a.env, s, c, t, old(QueueAndRead(a, read, t))) {
        NothingArrives(a.env, s, c, t, old(QueueAndRead(a, read, t)));
      }
    }
  }

  lemma NothingArrives(env: Platform, s: State, c: Call, t: Topic, r: Rx.RxRun)
    requires !Polls(c)
    ensures RxAfter(env, s, c, t, r) == r
  {
    assert r.queue + [] == r.queue;
  }

  /** The chat topic's mesh is what the polled events say. */
  lemma MeshIsPolled(env: Platform, calls: seq<Call>, t: Topic)
    ensures Outbox.Run(t, OpsOf(env, calls, t)).Meshed() <==> MeshedOn(StateOf(env, calls).polled, t)
  {
    Outbox.PeersOfRun(t, OpsOf(env, calls, t));
    OpsAreTheCalls(env, calls, t);
  }

  lemma BoxFollows(env: Platform, calls: seq<Call>, c: Call, t: Topic)
    requires !c.Reload?
    ensures Outbox.Run(t, OpsOf(env, calls + [c], t)) ==
            BoxAfter(env, StateOf(env, calls), c, t, Outbox.Run(t, OpsOf(env, calls, t)))
  {
    assert (calls + [c])[..|calls|] == calls;
    Outbox.RunConcat(t, OpsOf(env, calls, t), OpsBy(env, StateOf(env, calls), c, t));
    OpsDo(env, StateOf(env, calls), c, t, Outbox.Run(t, OpsOf(env, calls, t)));
  }

  lemma QueueFollows(env: Platform, calls: seq<Call>, c: Call, t: Topic)
    requires !c.Reload?
    ensures Rx.RunRx(RxOpsOf(env, calls + [c], t)) ==
      RxAfter(env, StateOf(env, calls), c, t, Rx.RunRx(RxOpsOf(env, calls, t)))
  {
    assert (calls + [c])[..|calls|] == calls;
    RxOpsDo(env, StateOf(env, calls), c, t, RxOpsOf(env, calls, t));
  }

  lemma StateFollows(env: Platform, calls: seq<Call>, c: Call)
    ensures StateOf(env, calls + [c]) == After(env, StateOf(env, calls), c)
  {
    assert (calls + [c])[..|calls|] == calls;
  }

  method PerformCall(a: AppState, read: map<Topic, seq<Octets>>, disk: Disk, c: Call, ghost calls: seq<Call>)
    returns (read': map<Topic, seq<Octets>>, disk': Disk)
    requires Served(a, read, disk, calls) && !c.Reload?
    modifies a, a.NetSet(), a.rx, a.chat, a.bindings
    ensures Served(a, read', disk', calls + [c])
    ensures a.net == old(a.net) || fresh(a.net)
  {
    ghost var env := a.env;
    MeshIsPolled(env, calls, CHAT_TOPIC);
    read', disk' := PerformAny(a, read, disk, c, StateOf(env, calls));
    StateFollows(env, calls, c);
    forall t ensures a.BoxOf(t) == Outbox.Run(t, OpsOf(env, calls + [c], t)) {
      BoxFollows(env, calls, c, t);
    }
    forall t ensures QueueAndRead(a, read', t) == Rx.RunRx(RxOpsOf(env, calls + [c], t)) {
      QueueFollows(env, calls, c, t);
    }
  }

  /** A page as it is loaded: a fresh plugin, nothing read, the saves under way gone. */
  method LoadPage(env: Platform, disk: Disk, ghost calls: seq<Call>)
    returns (a: AppState, read: map<Topic, seq<Octets>>, disk': Disk)
    requires calls == [] || calls[|calls| - 1].Reload?
    requires StateOf(env, calls) == Fresh(disk)
    ensures Served(a, read, disk', calls) && a.env == env
    ensures fresh(a) && fresh(a.rx) && fresh(a.chat) && fresh(a.bindings) && a.net == null
  {
    a := new AppState(env);
    read, disk' := map[], disk.(saving := []);
    assert forall t :: Outbox.Run(t, OpsOf(env, calls, t)) == Outbox.Box({}, [], [], false);
    assert forall t :: Rx.RunRx(RxOpsOf(env, calls, t)) == Rx.RxRun([], []);
  }

  /** Serves any sequence of calls on a browser with nothing stored; `read` is what the host's receives
      gave it, frame by frame, topic by topic. */
  method Serve(env: Platform, calls: seq<Call>) returns (a: AppState, read: map<Topic, seq<Octets>>, disk: Disk)
    ensures a.env == env && Served(a, read, disk, calls) && a.IdentityOk()
  {
    a, read, disk := LoadPage(env, Disk(None, [], []), []);
    assert calls[..0] == [];
    for i := 0 to |calls|
      invariant a.env == env && Served(a, read, disk, calls[..i])
      invariant fresh(a) && fresh(a.rx) && fresh(a.chat) && fresh(a.bindings) && (a.net != null ==> fresh(a.net))
    {
      assert calls[..i + 1] == calls[..i] + [calls[i]];
      if calls[i].Reload? {
        StateFollows(env, calls[..i], calls[i]);
        a, read, disk := LoadPage(env, disk, calls[..i + 1]);
      } else {
        read, disk := PerformCall(a, read, disk, calls[i], calls[..i]);
      }
    }
    assert calls[..|calls|] == calls;
    SessionKeepsIdentity(env, calls);
  }
}
