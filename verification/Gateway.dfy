/** The gateway's sinks and topic registry, and the total order all subscribers of a topic see. */
module Gateway {
  import opened Bytes
  import opened Ring

  type Topic = string

  // ----- the objects -----

  class BroadcastSink {
    const cap: nat
    var queue: seq<Octets>
    // owners other than the registry's weak references
    var strong: nat

    constructor (cap: nat)
      ensures this.cap == cap && queue == [] && strong == 1
    {
      this.cap := cap;
      queue, strong := [], 1;
    }

    method PushFrame(frame: Octets)
      modifies this`queue
      ensures queue == Pushed(old(queue), cap, frame)
    {
      if |queue| >= cap && queue != [] {
        queue := queue[1..];
      }
      queue := queue + [frame];
    }

    method TryNext() returns (r: Option<Octets>)
      modifies this`queue
      ensures old(queue) == [] ==> r == None && queue == []
      ensures old(queue) != [] ==> r == Some(old(queue)[0]) && queue == old(queue)[1..]
    {
      if queue == [] {
        return None;
      }
      r := Some(queue[0]);
      queue := queue[1..];
    }

    /** Dropping one owner. */
    method Release()
      requires strong > 0
      modifies this`strong
      ensures strong == old(strong) - 1
    {
      strong := strong - 1;
    }
  }

  predicate Distinct(sinks: seq<BroadcastSink>) {
    forall i, j | 0 <= i < j < |sinks| :: sinks[i] != sinks[j]
  }

  predicate Within(a: seq<BroadcastSink>, b: seq<BroadcastSink>) {
    forall s | s in a :: s in b
  }

  /** The sinks that still have an owner, in order. */
  function LiveOf(sinks: seq<BroadcastSink>): seq<BroadcastSink>
    reads sinks
  {
    if sinks == [] then []
    else LiveOf(sinks[..|sinks| - 1]) + if sinks[|sinks| - 1].strong > 0 then [sinks[|sinks| - 1]] else []
  }

  /** The live ones are all kept, nobody else is, and nobody twice. */
  lemma {:induction false} LiveOfExact(sinks: seq<BroadcastSink>)
    requires Distinct(sinks)
    ensures Distinct(LiveOf(sinks)) && Within(LiveOf(sinks), sinks)
    ensures forall s :: s in LiveOf(sinks) <==> s in sinks && s.strong > 0
  {
    if sinks != [] {
      var front, last := sinks[..|sinks| - 1], sinks[|sinks| - 1];
      LiveOfExact(front);
      assert sinks == front + [last] && last !in front;
    }
  }

  lemma LiveOfFirst(sinks: seq<BroadcastSink>)
    ensures forall i {:trigger sinks[i]} | 0 <= i < |sinks| ::
              LiveOf(sinks[..i + 1]) == LiveOf(sinks[..i]) + if sinks[i].strong > 0 then [sinks[i]] else []
    ensures sinks[..0] == [] && sinks[..|sinks|] == sinks
  {
    forall i | 0 <= i < |sinks|
      ensures LiveOf(sinks[..i + 1]) == LiveOf(sinks[..i]) + if sinks[i].strong > 0 then [sinks[i]] else []
    {
      assert sinks[..i + 1][..i] == sinks[..i];
    }
  }

  /** The `retain` loop of a broadcast: each live sink gets the frame and stays. */
  method PushToLive(sinks: seq<BroadcastSink>, frame: Octets) returns (kept: seq<BroadcastSink>)
    requires Distinct(sinks)
    modifies sinks`queue
    ensures kept == old(LiveOf(sinks))
    ensures forall s | s in sinks :: s.queue == AfterFrame(s.strong > 0, old(s.queue), s.cap, frame)
  {
    LiveOfFirst(sinks);
    kept := [];
    for i := 0 to |sinks|
      invariant forall j | i <= j < |sinks| :: sinks[j].queue == old(sinks[j].queue)
      invariant forall j | 0 <= j < i ::
                  sinks[j].queue == AfterFrame(sinks[j].strong > 0, old(sinks[j].queue), sinks[j].cap, frame)
      invariant kept == old(LiveOf(sinks[..i]))
    {
      var live := PushIfLive(sinks[i], frame);
      if live {
        kept := kept + [sinks[i]];
      }
    }
  }

  /** One turn of that loop: `upgrade` fails on a sink without owners. */
  method PushIfLive(sink: BroadcastSink, frame: Octets) returns (live: bool)
    modifies sink`queue
    ensures live <==> sink.strong > 0
    ensures sink.queue == AfterFrame(live, old(sink.queue), sink.cap, frame)
  {
    live := sink.strong > 0;
    if live {
      sink.PushFrame(frame);
    }
  }

  function AfterFrame(live: bool, queue: seq<Octets>, cap: nat, frame: Octets): seq<Octets> {
    if live then Pushed(queue, cap, frame) else queue
  }

  function SinksOn(inner: map<Topic, seq<BroadcastSink>>, topic: Topic): seq<BroadcastSink> {
    if topic in inner then inner[topic] else []
  }

  class TopicRegistry {
    var inner: map<Topic, seq<BroadcastSink>>

    constructor ()
      ensures inner == map[] && Valid()
    {
      inner := map[];
    }

    /** No sink is registered twice, on one topic or on two. */
    ghost predicate Valid()
      reads this
    {
      && (forall t | t in inner :: Distinct(inner[t]))
      && (forall t, u, s | t in inner && u in inner && t != u && s in inner[t] :: s !in inner[u])
    }

    method Subscribe(topic: Topic, cap: nat) returns (sink: BroadcastSink)
      requires Valid()
      modifies this
      ensures Valid() && fresh(sink) && sink.cap == cap && sink.queue == [] && sink.strong == 1
      ensures inner == old(inner)[topic := SinksOn(old(inner), topic) + [sink]]
    {
      sink := new BroadcastSink(cap);
      inner := inner[topic := SinksOn(inner, topic) + [sink]];
    }

    /** Every live sink of the topic gets the frame once; the dead are dropped from the list; no
        other sink is touched. */
    method Broadcast(topic: Topic, frame: Octets)
      requires Valid()
      modifies this, SinksOn(inner, topic)`queue
      ensures Valid()
      ensures inner ==
        if topic in old(inner) then old(inner)[topic := old(LiveOf(SinksOn(inner, topic)))] else old(inner)
      ensures forall s | s in old(SinksOn(inner, topic)) :: s.strong == old(s.strong) &&
                s.queue == AfterFrame(s.strong > 0, old(s.queue), s.cap, frame)
    {
      if topic !in inner {
        return;
      }
      LiveOfExact(inner[topic]);
      var kept := PushToLive(inner[topic], frame);
      inner := inner[topic := kept];
    }

    /** Sinks nobody owns stop counting at once, pruned or not. */
    method SubscriberCount(topic: Topic) returns (n: nat)
      ensures n == |LiveOf(SinksOn(inner, topic))|
    {
      var sinks := SinksOn(inner, topic);
      n := 0;
      for i := 0 to |sinks|
        invariant n == |LiveOf(sinks[..i])|
      {
        assert sinks[..i + 1][..i] == sinks[..i];
        if sinks[i].strong > 0 {
          n := n + 1;
        }
      }
      assert sinks[..|sinks|] == sinks;
    }
  }

  // ----- a client's read pump -----

  /** Ignored: text, ping and pong. Broken: the stream failed. */
  datatype WsMessage = Binary(frame: Octets) | Close | Broken | Ignored

  /** The command channel to the swarm loop. */
  class CommandLog {
    var published: seq<(Topic, Octets)>
    var open: bool

    constructor ()
      ensures published == [] && open
    {
      published, open := [], true;
    }

    method Send(topic: Topic, frame: Octets) returns (ok: bool)
      modifies this`published
      ensures ok == open
      ensures published == if open then old(published) + [(topic, frame)] else old(published)
    {
      ok := open;
      if open {
        published := published + [(topic, frame)];
      }
    }
  }

  /** The binary frames up to the first close or failure. */
  function FramesOf(messages: seq<WsMessage>): seq<Octets> {
    if messages == [] || messages[0].Close? || messages[0].Broken? then []
    else (if messages[0].Binary? then [messages[0].frame] else []) + FramesOf(messages[1..])
  }

  /** The frames the pump takes: with the channel closed the first one ends it. */
  function Handled(messages: seq<WsMessage>, open: bool): seq<Octets> {
    if open then FramesOf(messages) else FirstN(FramesOf(messages), 1)
  }

  function PushedAll(queue: seq<Octets>, cap: nat, frames: seq<Octets>): seq<Octets>
    decreases |frames|
  {
    if frames == [] then queue else PushedAll(Pushed(queue, cap, frames[0]), cap, frames[1..])
  }

  function Published(topic: Topic, frames: seq<Octets>): seq<(Topic, Octets)> {
    seq(|frames|, i requires 0 <= i < |frames| => (topic, frames[i]))
  }

  lemma {:induction false} PushedAllSnoc(queue: seq<Octets>, cap: nat, frames: seq<Octets>, f: Octets)
    ensures PushedAll(queue, cap, frames + [f]) == Pushed(PushedAll(queue, cap, frames), cap, f)
    decreases |frames|
  {
    if frames == [] {
      assert [f][1..] == [];
    } else {
      assert (frames + [f])[1..] == frames[1..] + [f];
      PushedAllSnoc(Pushed(queue, cap, frames[0]), cap, frames[1..], f);
    }
  }

  function PushedIfLive(live: bool, queue: seq<Octets>, cap: nat, frames: seq<Octets>): seq<Octets> {
    if live then PushedAll(queue, cap, frames) else queue
  }

  /** One message of the pump, after `done` frames: how the rest is made up. */
  lemma HandledTurn(messages: seq<WsMessage>, i: nat, done: seq<Octets>)
    requires i < |messages| && FramesOf(messages) == done + FramesOf(messages[i..])
    ensures messages[i].Close? || messages[i].Broken? ==> FramesOf(messages) == done
    ensures messages[i].Ignored? ==> FramesOf(messages) == done + FramesOf(messages[i + 1..])
    ensures messages[i].Binary? ==> FramesOf(messages) == (done + [messages[i].frame]) + FramesOf(messages[i + 1..])
  {
    var rest := FramesOf(messages[i + 1..]);
    assert messages[i..][1..] == messages[i + 1..];
    if messages[i].Binary? {
      assert FramesOf(messages[i..]) == [messages[i].frame] + rest;
      ConcatAssoc(done, [messages[i].frame], rest);
    } else if messages[i].Ignored? {
      assert FramesOf(messages[i..]) == [] + rest == rest;
    } else {
      assert FramesOf(messages[i..]) == [] && done + [] == done;
    }
  }

  lemma PublishedSnoc(topic: Topic, frames: seq<Octets>, f: Octets)
    ensures Published(topic, frames + [f]) == Published(topic, frames) + [(topic, f)]
  {
  }

  /** One frame from the client: to every live subscriber of the topic here, then to the swarm. */
  method HandleFrame(topic: Topic, frame: Octets, registry: TopicRegistry, commands: CommandLog) returns (ok: bool)
    requires registry.Valid()
    modifies registry, SinksOn(registry.inner, topic)`queue, commands`published
    ensures registry.Valid() && ok == commands.open
    ensures Within(SinksOn(registry.inner, topic), old(SinksOn(registry.inner, topic)))
    ensures forall s | s in old(SinksOn(registry.inner, topic)) && s.strong > 0 :: s in SinksOn(registry.inner, topic)
    ensures forall s | s in old(SinksOn(registry.inner, topic)) ::
              s.queue == AfterFrame(s.strong > 0, old(s.queue), s.cap, frame)
    ensures commands.published ==
      if commands.open then old(commands.published) + [(topic, frame)] else old(commands.published)
  {
    if topic in registry.inner {
      LiveOfExact(registry.inner[topic]);
    }
    registry.Broadcast(topic, frame);
    ok := commands.Send(topic, frame);
  }

  lemma FrameLands(live: bool, queue: seq<Octets>, cap: nat, done: seq<Octets>, f: Octets)
    ensures PushedIfLive(live, queue, cap, done + [f]) == AfterFrame(live, PushedIfLive(live, queue, cap, done), cap, f)
  {
    PushedAllSnoc(queue, cap, done, f);
  }

  /** The topic's list is what is left of `sinks`: all its live ones, and no others. */
  ghost predicate Listed(registry: TopicRegistry, topic: Topic, sinks: seq<BroadcastSink>)
    reads registry, sinks
  {
    && registry.Valid() && Within(SinksOn(registry.inner, topic), sinks)
    && forall s | s in sinks && s.strong > 0 :: s in SinksOn(registry.inner, topic)
  }

  /** One frame of the pump. */
  method PumpFrame(topic: Topic, frame: Octets, registry: TopicRegistry, commands: CommandLog,
    ghost sinks: seq<BroadcastSink>) returns (ok: bool)
    requires Listed(registry, topic, sinks)
    modifies registry, sinks`queue, commands`published
    ensures Listed(registry, topic, sinks) && ok == commands.open
    ensures forall s | s in sinks :: s.queue == AfterFrame(s.strong > 0, old(s.queue), s.cap, frame)
    ensures commands.published ==
      if commands.open then old(commands.published) + [(topic, frame)] else old(commands.published)
  {
    assert forall k | 0 <= k < |SinksOn(registry.inner, topic)| :: SinksOn(registry.inner, topic)[k] in sinks;
    ok := HandleFrame(topic, frame, registry, commands);
  }

  /** The pump, running alone: every frame it takes goes to every live subscriber of the topic, in
      order, and with the channel open each is published once, in the same order. */
  method ReadPump(topic: Topic, messages: seq<WsMessage>, registry: TopicRegistry, commands: CommandLog)
    requires registry.Valid()
    modifies registry, SinksOn(registry.inner, topic)`queue, commands`published
    ensures registry.Valid()
    ensures forall s | s in old(SinksOn(registry.inner, topic)) ::
              s.queue == PushedIfLive(s.strong > 0, old(s.queue), s.cap, Handled(messages, commands.open))
    ensures commands.published ==
      old(commands.published) + Published(topic, if commands.open then FramesOf(messages) else [])
  {
    ghost var sinks := SinksOn(registry.inner, topic);
    ghost var done: seq<Octets> := [];
    for i := 0 to |messages|
      invariant Listed(registry, topic, sinks)
      invariant FramesOf(messages) == done + FramesOf(messages[i..]) && (done == [] || commands.open)
      invariant forall s | s in sinks :: s.queue == PushedIfLive(s.strong > 0, old(s.queue), s.cap, done)
      invariant commands.published == old(commands.published) + Published(topic, if commands.open then done else [])
    {
      HandledTurn(messages, i, done);
      if messages[i].Close? || messages[i].Broken? {
        break;
      }
      if messages[i].Binary? {
        PublishedSnoc(topic, done, messages[i].frame);
        forall s | s in sinks
          ensures PushedIfLive(s.strong > 0, old(s.queue), s.cap, done + [messages[i].frame]) ==
            AfterFrame(s.strong > 0, s.queue, s.cap, messages[i].frame)
        {
          FrameLands(s.strong > 0, old(s.queue), s.cap, done, messages[i].frame);
        }
        var ok := PumpFrame(topic, messages[i].frame, registry, commands, sinks);
        done := done + [messages[i].frame];
        if !ok {
          break;
        }
      }
    }
    assert done == Handled(messages, commands.open);
  }
}
