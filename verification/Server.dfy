/** The gateway as objects: the registry, the sinks and the command channel follow every interleaving of
    the clients' pumps that `Pumps` describes. */
module Server {
  import opened Bytes
  import opened Gateway
  import opened Pumps
  import Hub

  function Untagged(log: seq<Entry>): (r: seq<(Topic, Octets)>)
    ensures |r| == |log|
  {
    seq(|log|, i requires 0 <= i < |log| => (log[i].topic, log[i].frame))
  }

  /** Registry and sinks have been through the operations of this state, client `c` owns sink `c`, and the
      channel has taken its commands. */
  ghost predicate Follows(hub: Hub.Hub, commands: CommandLog, clients: seq<Client>, sinks: seq<BroadcastSink>, s: State)
    reads hub, hub.registry, hub.known, commands
  {
    && hub.Valid() && hub.ops == s.registry && hub.known == sinks
    && clients == s.clients && SinksOk(s)
    && commands.open == s.open && commands.published == Untagged(s.commands)
  }

  lemma OwnSink(hub: Hub.Hub, commands: CommandLog, clients: seq<Client>, sinks: seq<BroadcastSink>, s: State, c: nat)
    requires Follows(hub, commands, clients, sinks, s) && c < |clients|
    ensures clients[c].sink == c < |sinks| && hub.known[c] == sinks[c]
    ensures sinks[c].strong > 0 <==> !clients[c].gone
  {
    assert HasSink(hub.Reg().sinks, c, s.clients[c]);
    assert Hub.Mirrors(hub.known[c], hub.Reg().sinks[c]);
  }

  method Connect(hub: Hub.Hub, commands: CommandLog, clients: seq<Client>, sinks: seq<BroadcastSink>,
                 topic: Topic, ghost s: State)
    returns (clients': seq<Client>, sinks': seq<BroadcastSink>)
    requires Follows(hub, commands, clients, sinks, s)
    modifies hub, hub.registry
    ensures Follows(hub, commands, clients', sinks', Connected(s, topic))
    ensures |sinks'| == |sinks| + 1 && sinks'[..|sinks|] == sinks && fresh(sinks'[|sinks|])
  {
    SinksOkAfterConnect(s, topic);
    var sink := hub.Subscribe(topic, SINK_CAPACITY);
    sinks' := sinks + [sink];
    clients' := clients + [Client(topic, |sinks|, Reading, [], false)];
  }

  /** A client's read loop takes one message: a binary frame goes to every live sink of the topic. */
  method Hear(hub: Hub.Hub, commands: CommandLog, clients: seq<Client>, sinks: seq<BroadcastSink>,
              c: nat, m: WsMessage, ghost s: State)
    returns (clients': seq<Client>)
    requires Follows(hub, commands, clients, sinks, s) && Enabled(s, Step.Hear(c, m))
    modifies hub, hub.registry, sinks`queue
    ensures Follows(hub, commands, clients', sinks, Heard(s, c, m))
  {
    var client := clients[c];
    var pc := client.pc;
    SinksOkAfterStep(s, Step.Hear(c, m), Heard(s, c, m));
    match m {
      case Binary(frame) =>
        ListedIsKnown(hub, client.topic);
        hub.Broadcast(client.topic, frame);
        pc := Sending(frame);
      case Close => pc := Ended;
      case Broken => pc := Ended;
      case Ignored =>
    }
    clients' := clients[c := client.(heard := client.heard + [m], pc := pc)];
  }

  lemma ListedIsKnown(hub: Hub.Hub, topic: Topic)
    requires hub.Valid()
    ensures forall s | s in SinksOn(hub.registry.inner, topic) :: s in hub.known
  {
  }

  /** The loop hands the frame it broadcast to the swarm, or ends on a closed channel. */
  method Send(hub: Hub.Hub, commands: CommandLog, clients: seq<Client>, sinks: seq<BroadcastSink>, c: nat,
    ghost s: State)
    returns (clients': seq<Client>)
    requires Follows(hub, commands, clients, sinks, s) && Enabled(s, Step.Send(c))
    modifies commands`published
    ensures Follows(hub, commands, clients', sinks, Sent(s, c))
  {
    var client := clients[c];
    SinksOkAfterStep(s, Step.Send(c), Sent(s, c));
    var ok := commands.Send(client.topic, client.pc.frame);
    clients' := clients[c := client.(pc := if ok then Reading else Refused(client.pc.frame))];
  }

  /** The write loop takes the oldest frame of the client's sink, if there is one. */
  method Write(hub: Hub.Hub, commands: CommandLog, clients: seq<Client>, sinks: seq<BroadcastSink>, c: nat,
    ghost s: State)
    returns (r: Option<Octets>)
    requires Follows(hub, commands, clients, sinks, s) && Enabled(s, Step.Write(c))
    modifies hub, sinks`queue
    ensures Follows(hub, commands, clients, sinks, Written(s, c))
    ensures hub.OutOf(c) == old(hub.OutOf(c)) + if r.Some? then [r.value] else []
  {
    OwnSink(hub, commands, clients, sinks, s, c);
    SinksOkAfterStep(s, Step.Write(c), Written(s, c));
    r := hub.Read(sinks[c], c);
  }

  method Drop(hub: Hub.Hub, commands: CommandLog, clients: seq<Client>, sinks: seq<BroadcastSink>, c: nat,
    ghost s: State)
    returns (clients': seq<Client>)
    requires Follows(hub, commands, clients, sinks, s) && Enabled(s, Step.Drop(c))
    modifies hub, sinks`strong
    ensures Follows(hub, commands, clients', sinks, Dropped(s, c))
  {
    OwnSink(hub, commands, clients, sinks, s, c);
    SinksOkAfterDrop(s, c);
    hub.Release(sinks[c], c);
    var client := clients[c];
    clients' := clients[c := client.(gone := true, pc := if client.pc.Reading? then Ended else client.pc)];
  }

  method FromSwarm(hub: Hub.Hub, commands: CommandLog, clients: seq<Client>, sinks: seq<BroadcastSink>,
                   topic: Topic, frame: Octets, ghost s: State)
    requires Follows(hub, commands, clients, sinks, s)
    modifies hub, hub.registry, sinks`queue
    ensures Follows(hub, commands, clients, sinks, Broadcasts(s, Entry(None, topic, frame)))
  {
    ghost var s' := Broadcasts(s, Entry(None, topic, frame));
    SinksOkAfterStep(s, Step.FromSwarm(topic, frame), s');
    ListedIsKnown(hub, topic);
    hub.Broadcast(topic, frame);
  }

  // ----- all of them -----

  method Turn(hub: Hub.Hub, commands: CommandLog, clients: seq<Client>, sinks: seq<BroadcastSink>, step: Step,
    ghost s: State)
    returns (clients': seq<Client>, sinks': seq<BroadcastSink>)
    requires Follows(hub, commands, clients, sinks, s) && Enabled(s, step)
    modifies hub, hub.registry, sinks, commands
    ensures Follows(hub, commands, clients', sinks', Apply(s, step))
    ensures |sinks| <= |sinks'| && sinks'[..|sinks|] == sinks
    ensures forall k | |sinks| <= k < |sinks'| :: fresh(sinks'[k])
  {
    clients', sinks' := clients, sinks;
    match step {
      case Connect(topic) => clients', sinks' := Connect(hub, commands, clients, sinks, topic, s);
      case Hear(c, m) => clients' := Hear(hub, commands, clients, sinks, c, m, s);
      case Send(c) => clients' := Send(hub, commands, clients, sinks, c, s);
      case Write(c) => var r := Write(hub, commands, clients, sinks, c, s);
      case Drop(c) => clients' := Drop(hub, commands, clients, sinks, c, s);
      case FromSwarm(topic, frame) => FromSwarm(hub, commands, clients, sinks, topic, frame, s);
      case SwarmEnds => commands.open := false;
    }
  }

  /** The relay's objects after any interleaving are those of the run: the registry and each sink have been
      through its operations, and the swarm has been handed its commands. */
  method Serve(steps: seq<Step>)
    returns (hub: Hub.Hub, commands: CommandLog, clients: seq<Client>, sinks: seq<BroadcastSink>)
    ensures Follows(hub, commands, clients, sinks, Run(steps))
  {
    hub := new Hub.Hub();
    commands := new CommandLog();
    clients, sinks := [], [];
    assert steps[..0] == [];
    for i := 0 to |steps|
      invariant Follows(hub, commands, clients, sinks, Run(steps[..i]))
      invariant fresh(hub) && fresh(hub.registry) && fresh(commands)
      invariant forall k | 0 <= k < |sinks| :: fresh(sinks[k])
    {
      assert steps[..i + 1][..i] == steps[..i];
      if CanTake(clients, steps[i]) {
        clients, sinks := Turn(hub, commands, clients, sinks, steps[i], Run(steps[..i]));
      }
    }
    assert steps[..|steps|] == steps;
  }
}
