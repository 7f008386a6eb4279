/** The plugin's side of the transport: the events it polls and the FIFO of commands it hands over. */
module Net {
  import opened Bytes
  import opened Me

  type Topic = string
  type Peer = string

  datatype NetEvent =
    | PeerUp(peer: Peer)
    | PeerDown(peer: Peer)
    | Message(topic: Topic, from: Peer, bs: Octets)
    | SubscriptionChange(topic: Topic, peer: Peer, joined: bool)
    | NetError(reason: string)

  datatype Cmd = CmdPublish(topic: Topic, bs: Octets) | CmdSubscribe(topic: Topic)

  /** The publishes of one topic among the commands, in order. */
  function PublishedOn(log: seq<Cmd>, topic: Topic): seq<Octets> {
    if log == [] then []
    else
      var last := log[|log| - 1];
      PublishedOn(log[..|log| - 1], topic) + if last.CmdPublish? && last.topic == topic then [last.bs] else []
  }

  lemma PublishedOnSnoc(log: seq<Cmd>, c: Cmd, topic: Topic)
    ensures PublishedOn(log + [c], topic) ==
      PublishedOn(log, topic) + if c.CmdPublish? && c.topic == topic then [c.bs] else []
  {
  }

  class Net {
    const key: Key
    var events: seq<NetEvent>
    var log: seq<Cmd>
    var open: bool

    constructor (key: Key)
      ensures this.key == key && events == [] && log == [] && open
    {
      this.key := key;
      events, log, open := [], [], true;
    }

    /** The command channel is a FIFO; a closed one refuses. */
    method Send(c: Cmd) returns (ok: bool)
      modifies this`log
      ensures ok == open
      ensures log == if open then old(log) + [c] else old(log)
    {
      ok := open;
      if open {
        log := log + [c];
      }
    }

    /** The other side of the transport: events come in. */
    method Arrive(es: seq<NetEvent>)
      modifies this`events
      ensures events == old(events) + es
    {
      events := events + es;
    }

    /** And the drive task behind the channel ends. */
    method Close()
      modifies this`open
      ensures !open
    {
      open := false;
    }

    method PollEvents() returns (es: seq<NetEvent>)
      modifies this`events
      ensures es == old(events) && events == []
    {
      es := events;
      events := [];
    }
  }
}
