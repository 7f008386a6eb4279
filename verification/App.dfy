/** The plugin's state and its entry points: publishing, chat, login, the event pump and receiving. */
module App {
  import opened Bytes
  import opened Utf8
  import opened Me
  import opened Platform
  import opened Identity
  import opened Chat
  import opened Net
  import opened Outbox
  import Rx

  datatype AppError =
    | InternalTopic | PublishCmd | PublishPreInit
    | SubscribeCmd | SubscribePreInit
    | InitTopicGuard | InitLibrary | InitOverlay
    | ChatPreInit | ChatSign | ChatPublishCmd
    | LoginParse | LoginEmpty | LoginVerify | LoginPreInit | LoginWrongPeer

  predicate IsInternal(topic: Topic) {
    topic == CHAT_TOPIC || topic == LEGACY_CHAT_TOPIC || topic == IDENTITY_TOPIC
  }

  // ----- what one inbound event does -----

  datatype IncomingChat = Signed(chat: SignedChat) | Plaintext(plain: PlaintextChat)

  /** `chat::ingest`: a signed chat is taken exactly when it verifies and is not from this tab's key, a
      plain one exactly when it is not from this tab's peer id; each on its own topic only. */
  function IngestChat(env: Platform, topic: Topic, bs: Octets, selfKey: Option<Key>, selfId: Octets):
    (r: Option<IncomingChat>)
    ensures forall c :: r == Some(Signed(c)) <==>
      topic == CHAT_TOPIC && env.parseChat(bs) == Some(c) && env.ChatVerifies(c) && selfKey != Some(c.author)
    ensures forall c :: r == Some(Plaintext(c)) <==>
      topic == LEGACY_CHAT_TOPIC && env.parsePlain(bs) == Some(c) && c.peer != selfId
  {
    if topic == CHAT_TOPIC then
      match env.parseChat(bs)
      case None => None
      case Some(c) => if !env.ChatVerifies(c) || selfKey == Some(c.author) then None else Some(Signed(c))
    else if topic == LEGACY_CHAT_TOPIC then
      match env.parsePlain(bs)
      case None => None
      case Some(c) => if c.peer == selfId then None else Some(Plaintext(c))
    else None
  }

  /** `short_peer_display`: the first `n` characters, or all when there are fewer. */
  function TakeChars(t: Text, n: nat): (r: Octets)
    ensures r <= t && Valid(r)
    ensures Chars(r) == if Chars(t) <= n then Chars(t) else n
    decreases n
  {
    if t == [] || n == 0 then []
    else
      var k := CharLen(t);
      var rest := TakeChars(t[k..], n - 1);
      CharsStep(t);
      OneCharThen(t, rest);
      t[..k] + rest
  }

  /** The first character in front of a well-formed prefix of the others. */
  lemma OneCharThen(t: Text, rest: Octets)
    requires t != [] && rest <= t[CharLen(t)..] && Valid(rest)
    ensures t[..CharLen(t)] + rest <= t && Valid(t[..CharLen(t)] + rest)
    ensures Chars(t[..CharLen(t)] + rest) == 1 + Chars(rest)
  {
    var first := t[..CharLen(t)];
    OneChar(t);
    ValidConcat(first, rest);
    CharsConcat(first, rest);
    CharsOfOne(first);
    assert t == first + t[CharLen(t)..];
  }

  function EntryFor(table: Table, c: IncomingChat): ChatEntry {
    match c
    case Signed(s) => ChatEntry(Attribute(table, s.author), s.body)
    case Plaintext(p) => ChatEntry(TakeChars(p.peer, 8), p.body)
  }

  datatype Inbox = Inbox(table: Table, history: seq<ChatEntry>, forHost: seq<NetEvent>)

  datatype Self = Self(key: Option<Key>, id: Octets, cap: nat)

  function Receive(env: Platform, self: Self, s: Inbox, e: NetEvent): Inbox {
    match e
    case SubscriptionChange(_, _, _) => s
    case NetError(_) => s
    case Message(topic, from, bs) =>
      if topic == CHAT_TOPIC || topic == LEGACY_CHAT_TOPIC then
        match IngestChat(env, topic, bs, self.key, self.id)
        case None => s
        case Some(c) => s.(history := LastN(s.history + [EntryFor(s.table, c)], self.cap))
      else if topic == IDENTITY_TOPIC && env.peerKey(from).Some? then
        var k := env.peerKey(from).value;
        s.(table := Absorbed(s.table, k, ParseAndVerify(env, bs, k)))
      else s.(forHost := s.forHost + [e])
    case _ => s.(forHost := s.forHost + [e])
  }

  function ReceiveAll(env: Platform, self: Self, s: Inbox, events: seq<NetEvent>): Inbox {
    if events == [] then s
    else Receive(env, self, ReceiveAll(env, self, s, events[..|events| - 1]), events[|events| - 1])
  }

  /** Messages the host can receive: never chat, and identity only when the sender has no key. */
  predicate ForHost(env: Platform, e: NetEvent) {
    e.Message? && e.topic != CHAT_TOPIC && e.topic != LEGACY_CHAT_TOPIC
    && (e.topic == IDENTITY_TOPIC ==> env.peerKey(e.from).None?)
  }

  function KeptForHost(env: Platform): NetEvent -> bool {
    (e: NetEvent) => ForHost(env, e)
  }

  function HostBytes(env: Platform, events: seq<NetEvent>, topic: Topic): seq<Octets> {
    Rx.BytesOn(Filter(events, KeptForHost(env)), topic)
  }

  lemma HostBytesSnoc(env: Platform, events: seq<NetEvent>, e: NetEvent, topic: Topic)
    ensures HostBytes(env, events + [e], topic) == HostBytes(env, events, topic) + HostPart(env, e, topic)
  {
    var kept := Filter(events, KeptForHost(env));
    FilterSnoc(events, e, KeptForHost(env));
    if ForHost(env, e) {
      Rx.BytesOnSnoc(kept, e, topic);
    } else {
      assert kept + [] == kept;
    }
  }

  lemma HostBytesConcat(env: Platform, a: seq<NetEvent>, b: seq<NetEvent>, topic: Topic)
    ensures HostBytes(env, a + b, topic) == HostBytes(env, a, topic) + HostBytes(env, b, topic)
  {
    FilterConcat(a, b, KeptForHost(env));
    Rx.BytesOnConcat(Filter(a, KeptForHost(env)), Filter(b, KeptForHost(env)), topic);
  }

  function HostPart(env: Platform, e: NetEvent, topic: Topic): seq<Octets> {
    if ForHost(env, e) && e.topic == topic then [e.bs] else []
  }

  /** An event goes to the host's queue or leaves it alone; only messages for the host show there. */
  lemma ReceiveForHost(env: Platform, self: Self, s: Inbox, e: NetEvent, topic: Topic)
    ensures Rx.BytesOn(Receive(env, self, s, e).forHost, topic) ==
      Rx.BytesOn(s.forHost, topic) + HostPart(env, e, topic)
  {
    var queue, queue' := s.forHost, Receive(env, self, s, e).forHost;
    if queue' == queue + [e] {
      Rx.BytesOnSnoc(queue, e, topic);
      assert Rx.PayloadOn(e, topic) == HostPart(env, e, topic);
    } else {
      assert queue' == queue && HostPart(env, e, topic) == [];
    }
  }

  lemma ReceiveAllForHost(env: Platform, self: Self, s: Inbox, events: seq<NetEvent>, topic: Topic)
    requires events != []
    ensures Rx.BytesOn(ReceiveAll(env, self, s, events).forHost, topic) ==
            Rx.BytesOn(ReceiveAll(env, self, s, events[..|events| - 1]).forHost, topic)
              + HostPart(env, events[|events| - 1], topic)
  {
    ReceiveForHost(env, self, ReceiveAll(env, self, s, events[..|events| - 1]), events[|events| - 1], topic);
  }

  /** What reaches the receive queues is decided event by event, whatever the tables hold. */
  lemma {:induction false} QueuedIsForHost(env: Platform, self: Self, s: Inbox, events: seq<NetEvent>, topic: Topic)
    ensures Rx.BytesOn(ReceiveAll(env, self, s, events).forHost, topic) ==
      Rx.BytesOn(s.forHost, topic) + HostBytes(env, events, topic)
  {
    if events == [] {
      assert HostBytes(env, events, topic) == [];
    } else {
      var front, e := events[..|events| - 1], events[|events| - 1];
      QueuedIsForHost(env, self, s, front, topic);
      ReceiveAllForHost(env, self, s, events, topic);
      HostBytesSnoc(env, front, e, topic);
      assert events == front + [e];
      ConcatAssoc(Rx.BytesOn(s.forHost, topic), HostBytes(env, front, topic), HostPart(env, e, topic));
    }
  }

  lemma HostPartIs(env: Platform, e: NetEvent, topic: Topic)
    ensures topic == CHAT_TOPIC || topic == LEGACY_CHAT_TOPIC ==> HostPart(env, e, topic) == []
    ensures !IsInternal(topic) ==> HostPart(env, e, topic) == Rx.PayloadOn(e, topic)
  {
  }

  /** The host never receives chat; an ordinary topic's messages all reach it, in order. */
  lemma {:induction false} HostReceivesItsTopics(env: Platform, events: seq<NetEvent>, topic: Topic)
    ensures topic == CHAT_TOPIC || topic == LEGACY_CHAT_TOPIC ==> HostBytes(env, events, topic) == []
    ensures !IsInternal(topic) ==> HostBytes(env, events, topic) == Rx.BytesOn(events, topic)
  {
    if events != [] {
      var front, e := events[..|events| - 1], events[|events| - 1];
      HostReceivesItsTopics(env, front, topic);
      HostBytesSnoc(env, front, e, topic);
      HostPartIs(env, e, topic);
      assert events == front + [e];
    }
  }

  lemma {:induction false} ReceiveKeepsTable(env: Platform, self: Self, s: Inbox, events: seq<NetEvent>)
    requires GoodTable(env, s.table)
    ensures GoodTable(env, ReceiveAll(env, self, s, events).table)
  {
    if events != [] {
      ReceiveKeepsTable(env, self, s, events[..|events| - 1]);
    }
  }

  // ----- the state -----

  function PeersIn(m: map<Topic, set<Peer>>, t: Topic): set<Peer> {
    if t in m then m[t] else {}
  }

  function PendingIn(m: map<Topic, seq<Octets>>, t: Topic): seq<Octets> {
    if t in m then m[t] else []
  }

  function When(c: bool, s: seq<Octets>): seq<Octets> {
    if c then s else []
  }

  /** The peer has left the sets that are not to do, and `emptied` names those it left empty. */
  ghost predicate LeftSoFar(before: map<Topic, set<Peer>>, now: map<Topic, set<Peer>>, todo: set<Topic>,
    emptied: set<Topic>, peer: Peer) {
    && todo <= before.Keys && now.Keys == before.Keys
    && (forall t | t in before :: before[t] != {} && now[t] == if t in todo then before[t] else before[t] - {peer})
    && (forall t :: t in emptied <==> t in before && t !in todo && before[t] - {peer} == {})
  }

  lemma LeaveOne(before: map<Topic, set<Peer>>, now: map<Topic, set<Peer>>, todo: set<Topic>, emptied: set<Topic>,
    peer: Peer, t: Topic)
    requires LeftSoFar(before, now, todo, emptied, peer) && t in todo
    ensures var left := now[t] - {peer};
      var emptied' := if peer in now[t] && left == {} then emptied + {t} else emptied;
      LeftSoFar(before, now[t := left], todo - {t}, emptied', peer)
  {
  }

  /** `build_signed_wire`, once there is a key. */
  function SignedLine(env: Platform, key: Option<Key>, body: Octets, now: nat): Option<Octets> {
    if key.Some? then env.signChat(key.value, body, now) else None
  }

  /** What a chat line answers: the errors in their order. */
  function ChatAnswer(env: Platform, key: Option<Key>, meshed: bool, up: bool, body: Octets, now: nat):
    Result<(), AppError> {
    if key.None? then Err(ChatPreInit)
    else if env.signChat(key.value, body, now).None? then Err(ChatSign)
    else if meshed && !up then Err(ChatPublishCmd)
    else Ok(())
  }

  /** The identity topic is offered the encoded self bindings, if there are any and they encode. */
  function Announced(env: Platform, t: Topic, b: Box, bs: seq<SignedBinding>): Box {
    if t == IDENTITY_TOPIC && bs != [] && env.encodeBindings(bs).Some?
    then Offer(b, env.encodeBindings(bs).value)
    else b
  }

  function MyLine(body: Octets): ChatEntry {
    ChatEntry(Ascii("me"), body)
  }

  datatype LoginMessage = Unparsable | OtherType | Link(signed: Option<SignedBinding>)

  datatype Boot = Boot(key: Key, id: Octets, bindings: seq<SignedBinding>)

  class AppState {
    const env: Platform
    const rx: Rx.RxState
    const chat: ChatState
    const bindings: BindingTable
    var net: Net?
    var selfId: Octets
    var selfKey: Option<Key>
    var selfBindings: seq<SignedBinding>
    var topicPeers: map<Topic, set<Peer>>
    var pendingSends: map<Topic, seq<Octets>>
    // commands accepted by nets that a repeated init has replaced
    ghost var retired: seq<Cmd>

    constructor (env: Platform)
      ensures Valid() && IdentityOk() && this.env == env && net == null
      ensures fresh(rx) && fresh(chat) && fresh(bindings)
      ensures rx.queues == map[] && chat.history == [] && chat.cap == HISTORY_CAP
      ensures selfId == [] && selfBindings == [] && bindings.entries == map[]
      ensures forall t :: BoxOf(t) == Box({}, [], [], false)
    {
      this.env := env;
      rx := new Rx.RxState();
      chat := new ChatState(HISTORY_CAP);
      bindings := new BindingTable();
      net, selfId, selfKey, selfBindings := null, [], None, [];
      topicPeers, pendingSends, retired := map[], map[], [];
    }

    ghost function NetSet(): set<Net>
      reads this
    {
      if net == null then {} else {net}
    }

    ghost function Log(): seq<Cmd>
      reads this, NetSet()
    {
      retired + if net == null then [] else net.log
    }

    ghost predicate Open()
      reads this, NetSet()
    {
      net != null && net.open
    }

    ghost function Incoming(): seq<NetEvent>
      reads this, NetSet()
    {
      if net == null then [] else net.events
    }

    /** This topic's part of the state. */
    ghost function BoxOf(t: Topic): Box
      reads this, NetSet()
    {
      Box(PeersIn(topicPeers, t), PendingIn(pendingSends, t), PublishedOn(Log(), t), Open())
    }

    /** No empty peer set, every topic settled, no mesh before a net. */
    ghost predicate Valid()
      reads this, NetSet()
    {
      && (forall t | t in topicPeers :: topicPeers[t] != {})
      && (forall t :: Settled(BoxOf(t)))
      && (net == null ==> topicPeers == map[])
      && selfKey == (if net == null then None else Some(net.key))
    }

    ghost predicate IdentityOk()
      reads this, bindings
    {
      && GoodTable(env, bindings.entries)
      && match selfKey
         case None => selfBindings == []
         case Some(k) => GoodSelf(env, k, selfBindings)
    }

    predicate HasMeshFor(topic: Topic)
      reads this
    {
      topic in topicPeers && topicPeers[topic] != {}
    }

    // ----- outbound -----

    method EnqueueSend(topic: Topic, bs: Octets)
      modifies this`pendingSends
      ensures BoxOf(topic) == old(BoxOf(topic)).(pending := Enqueued(old(BoxOf(topic)).pending, bs))
      ensures forall t | t != topic :: BoxOf(t) == old(BoxOf(t))
    {
      var queue := PendingIn(pendingSends, topic);
      if |queue| >= PENDING_SENDS_CAP {
        queue := queue[1..];
      }
      queue := queue + [bs];
      assert queue == Enqueued(PendingIn(pendingSends, topic), bs);
      pendingSends := pendingSends[topic := queue];
      assert Log() == old(Log());
    }

    /** Hands the bytes to the net, if there is one. */
    method SendToNet(topic: Topic, bs: Octets) returns (r: Option<bool>)
      modifies NetSet()`log
      ensures r == if net == null then None else Some(net.open)
      ensures BoxOf(topic) == old(BoxOf(topic)).(sent := old(BoxOf(topic)).sent + When(Open(), [bs]))
      ensures forall t | t != topic :: BoxOf(t) == old(BoxOf(t))
    {
      if net == null {
        return None;
      }
      ghost var before := Log();
      var c := CmdPublish(topic, bs);
      var ok := net.Send(c);
      if net.open {
        assert Log() == before + [c];
        forall t ensures PublishedOn(Log(), t) == PublishedOn(before, t) + When(t == topic, [bs]) {
          PublishedOnSnoc(before, c, t);
        }
      }
      r := Some(ok);
    }

    /** Empties the topic's queue into the net, oldest first. */
    method FlushPendingFor(topic: Topic)
      modifies this`pendingSends, NetSet()`log
      ensures BoxOf(topic) == Flush(old(BoxOf(topic)))
      ensures forall t | t != topic :: BoxOf(t) == old(BoxOf(t))
    {
      var queued := PendingIn(pendingSends, topic);
      if topic in pendingSends {
        pendingSends := pendingSends[topic := []];
      }
      ghost var sent := old(BoxOf(topic)).sent;
      for i := 0 to |queued|
        invariant BoxOf(topic) == old(BoxOf(topic)).(pending := [], sent := sent + When(Open(), queued[..i]))
        invariant forall t | t != topic :: BoxOf(t) == old(BoxOf(t))
      {
        var ok := SendToNet(topic, queued[i]);
        assert queued[..i + 1] == queued[..i] + [queued[i]];
        ConcatAssoc(sent, When(Open(), queued[..i]), When(Open(), [queued[i]]));
      }
      assert queued[..|queued|] == queued;
    }

    /** Out at once when the topic is meshed, else into its buffer; the answer is the net's. */
    method OfferTo(topic: Topic, bs: Octets) returns (r: Option<bool>)
      requires Valid()
      modifies this`pendingSends, NetSet()`log
      ensures Valid()
      ensures BoxOf(topic) == Offer(old(BoxOf(topic)), bs)
      ensures forall t | t != topic :: BoxOf(t) == old(BoxOf(t))
      ensures r == Some(!HasMeshFor(topic) || Open())
    {
      OfferSettles(BoxOf(topic), bs);
      if !HasMeshFor(topic) {
        EnqueueSend(topic, bs);
        r := Some(true);
      } else {
        r := SendToNet(topic, bs);
      }
      assert BoxOf(topic) == Offer(old(BoxOf(topic)), bs);
      forall t ensures Settled(BoxOf(t)) {
        assert t != topic ==> BoxOf(t) == old(BoxOf(t));
      }
    }

    /** A host publish. The errors name the two ways it can fail; `PublishPreInit` is not one of them. */
    method PublishInner(topic: Topic, bs: Octets) returns (r: Result<(), AppError>)
      requires Valid()
      modifies this`pendingSends, NetSet()`log
      ensures Valid()
      ensures r == if IsInternal(topic) then Err(InternalTopic)
                   else if HasMeshFor(topic) && !Open() then Err(PublishCmd) else Ok(())
      ensures !IsInternal(topic) ==> BoxOf(topic) == Offer(old(BoxOf(topic)), bs)
      ensures forall t | t != topic || IsInternal(topic) :: BoxOf(t) == old(BoxOf(t))
    {
      if IsInternal(topic) {
        return Err(InternalTopic);
      }
      var sent := OfferTo(topic, bs);
      match sent {
        case Some(true) => r := Ok(());
        case Some(false) => r := Err(PublishCmd);
        case None => r := Err(PublishPreInit);
      }
    }

    /** A chat line goes out signed, and is shown locally unless the net refused it. */
    method PublishChat(body: Octets, now: nat) returns (r: Result<(), AppError>)
      requires Valid()
      modifies this`pendingSends, NetSet()`log, chat
      ensures Valid()
      ensures r == ChatAnswer(env, selfKey, HasMeshFor(CHAT_TOPIC), Open(), body, now)
      ensures chat.history == if r.Ok? then LastN(old(chat.history) + [MyLine(body)], chat.cap) else old(chat.history)
      ensures SignedLine(env, selfKey, body, now).Some? ==>
        BoxOf(CHAT_TOPIC) == Offer(old(BoxOf(CHAT_TOPIC)), SignedLine(env, selfKey, body, now).value)
      ensures forall t | t != CHAT_TOPIC || SignedLine(env, selfKey, body, now).None? :: BoxOf(t) == old(BoxOf(t))
    {
      if net == null {
        return Err(ChatPreInit);
      }
      var wire := env.signChat(net.key, body, now);
      if wire.None? {
        return Err(ChatSign);
      }
      var sent := OfferTo(CHAT_TOPIC, wire.value);
      if sent != Some(true) {
        return Err(ChatPublishCmd);
      }
      label Sent:
      chat.Push(MyLine(body));
      assert forall t :: BoxOf(t) == old@Sent(BoxOf(t));
      r := Ok(());
    }

    /** Enter in the chat box: the line is cut to its longest well-formed prefix within the limit, and
        that is published as a chat line. An empty line does nothing. */
    method SubmitChat(value: Text, now: nat) returns (r: Result<(), AppError>)
      requires Valid()
      modifies this`pendingSends, NetSet()`log, chat
      ensures Valid()
      ensures value == [] ==>
        r == Ok(()) && chat.history == old(chat.history) && forall t :: BoxOf(t) == old(BoxOf(t))
      ensures value != [] ==>
        var body := LongestValid(value, MAX_BODY_BYTES);
        var wire := SignedLine(env, selfKey, body, now);
        && r == ChatAnswer(env, selfKey, HasMeshFor(CHAT_TOPIC), Open(), body, now)
        && chat.history == (if r.Ok? then LastN(old(chat.history) + [MyLine(body)], chat.cap) else old(chat.history))
        && (wire.Some? ==> BoxOf(CHAT_TOPIC) == Offer(old(BoxOf(CHAT_TOPIC)), wire.value))
        && forall t | t != CHAT_TOPIC || wire.None? :: BoxOf(t) == old(BoxOf(t))
    {
      if value == [] {
        return Ok(());
      }
      var trimmed := TrimToCharBoundary(value, MAX_BODY_BYTES);
      r := PublishChat(trimmed, now);
    }

    method RepublishSelfBindings()
      requires Valid()
      modifies this`pendingSends, NetSet()`log
      ensures Valid()
      ensures forall t :: BoxOf(t) == Announced(env, t, old(BoxOf(t)), selfBindings)
    {
      if selfBindings == [] {
        return;
      }
      var wire := env.encodeBindings(selfBindings);
      if wire.None? {
        return;
      }
      var sent := OfferTo(IDENTITY_TOPIC, wire.value);
    }

    method SubscribeOpaque(topic: Topic) returns (r: Result<(), AppError>)
      requires Valid()
      modifies NetSet()`log
      ensures Valid()
      ensures r == if IsInternal(topic) then Err(InternalTopic)
                   else if net == null then Err(SubscribePreInit)
                   else if !net.open then Err(SubscribeCmd) else Ok(())
      ensures Log() == if r.Ok? then old(Log()) + [CmdSubscribe(topic)] else old(Log())
      ensures forall t :: BoxOf(t) == old(BoxOf(t))
    {
      if IsInternal(topic) {
        return Err(InternalTopic);
      }
      if net == null {
        return Err(SubscribePreInit);
      }
      ghost var before := Log();
      var ok := net.Send(CmdSubscribe(topic));
      if ok {
        assert Log() == before + [CmdSubscribe(topic)];
        forall t {
          PublishedOnSnoc(before, CmdSubscribe(topic), t);
        }
      }
      assert forall t :: BoxOf(t) == old(BoxOf(t));
      r := if ok then Ok(()) else Err(SubscribeCmd);
    }

    // ----- login and boot -----

    method Adopt(bs: seq<SignedBinding>)
      requires Valid() && selfKey.Some?
      modifies this`selfBindings, bindings
      ensures Valid()
      ensures selfBindings == bs && bindings.entries == old(bindings.entries)[selfKey.value := bs]
      ensures forall t :: BoxOf(t) == old(BoxOf(t))
    {
      selfBindings := bs;
      bindings.Insert(selfKey.value, bs);
      assert forall t :: BoxOf(t) == old(BoxOf(t));
    }

    /** A verified binding of this very key becomes the first self binding, is published, and its
        snapshot is handed out to be saved; anything else changes nothing. */
    method HandleLoginMessage(msg: LoginMessage) returns (r: Result<(), AppError>, snapshot: Option<seq<SignedBinding>>)
      requires Valid()
      modifies this`selfBindings, this`pendingSends, NetSet()`log, bindings
      ensures Valid() && (old(IdentityOk()) ==> IdentityOk())
      ensures r == match msg
                   case Unparsable => Err(LoginParse)
                   case OtherType => Ok(())
                   case Link(None) => Err(LoginEmpty)
                   case Link(Some(b)) =>
                     if !env.BindingVerifies(b) then Err(LoginVerify)
                     else if selfKey.None? then Err(LoginPreInit)
                     else if b.claim.peer != selfKey.value then Err(LoginWrongPeer)
                     else Ok(())
      ensures snapshot.Some? <==> r.Ok? && msg.Link?
      ensures snapshot.Some? ==>
        && selfBindings == LoggedIn(old(selfBindings), msg.signed.value) == snapshot.value
        && bindings.entries == old(bindings.entries)[selfKey.value := selfBindings]
        && (old(IdentityOk()) ==> GoodSelf(env, selfKey.value, snapshot.value))
        && forall t :: BoxOf(t) == Announced(env, t, old(BoxOf(t)), selfBindings)
      ensures snapshot.None? ==>
        && selfBindings == old(selfBindings) && bindings.entries == old(bindings.entries)
        && forall t :: BoxOf(t) == old(BoxOf(t))
    {
      snapshot := None;
      if msg.Unparsable? {
        return Err(LoginParse), None;
      }
      if msg.OtherType? {
        return Ok(()), None;
      }
      if msg.signed.None? {
        return Err(LoginEmpty), None;
      }
      var binding := msg.signed.value;
      if !env.BindingVerifies(binding) {
        return Err(LoginVerify), None;
      }
      if selfKey.None? {
        return Err(LoginPreInit), None;
      }
      if binding.claim.peer != selfKey.value {
        return Err(LoginWrongPeer), None;
      }
      if IdentityOk() {
        LoginKeepsGoodSelf(env, selfKey.value, selfBindings, binding);
      }
      Adopt(LoggedIn(selfBindings, binding));
      snapshot := Some(selfBindings);
      RepublishSelfBindings();
      r := Ok(());
    }

    /** A fresh net and the loaded identity; queues and mesh table stay. */
    method Install(boot: Boot)
      requires Valid()
      modifies this, bindings
      ensures Valid()
      ensures net != null && fresh(net) && net.events == [] && net.key == boot.key
      ensures selfId == boot.id && selfBindings == boot.bindings
      ensures bindings.entries ==
        if boot.bindings == [] then old(bindings.entries) else old(bindings.entries)[boot.key := boot.bindings]
      ensures forall t :: BoxOf(t) == old(BoxOf(t)).(up := true)
    {
      retired := Log();
      net := new Net(boot.key);
      selfId, selfKey, selfBindings := boot.id, Some(boot.key), boot.bindings;
      if selfBindings != [] {
        bindings.Insert(boot.key, selfBindings);
      }
      assert Log() == old(Log());
      assert forall t :: BoxOf(t) == old(BoxOf(t)).(up := true);
    }

    /** Boot with what was loaded (None: some library step failed). Stored bindings are trusted. */
    method InitInner(topics: seq<Topic>, boot: Option<Boot>, overlaysOk: bool) returns (r: Result<(), AppError>)
      requires Valid()
      modifies this, NetSet()`log, bindings
      ensures Valid()
      ensures r == if exists i | 0 <= i < |topics| :: IsInternal(topics[i]) then Err(InitTopicGuard)
                   else if boot.None? then Err(InitLibrary)
                   else if !overlaysOk then Err(InitOverlay) else Ok(())
      ensures r in {Err(InitTopicGuard), Err(InitLibrary)} ==>
        && net == old(net) && selfId == old(selfId) && selfKey == old(selfKey) && selfBindings == old(selfBindings)
        && bindings.entries == old(bindings.entries) && forall t :: BoxOf(t) == old(BoxOf(t))
      ensures r !in {Err(InitTopicGuard), Err(InitLibrary)} ==>
        && net != null && fresh(net) && net.events == [] && net.key == boot.value.key && selfId == boot.value.id
        && selfBindings == boot.value.bindings
        && bindings.entries ==
          (if selfBindings == [] then old(bindings.entries) else old(bindings.entries)[net.key := selfBindings])
        && forall t ::
             BoxOf(t) ==
             (if r.Ok? then Announced(env, t, old(BoxOf(t)).(up := true), selfBindings) else old(BoxOf(t)).(up := true))
      ensures r !in {Err(InitTopicGuard), Err(InitLibrary)} ==>
        (old(IdentityOk()) && GoodSelf(env, boot.value.key, boot.value.bindings) ==> IdentityOk())
    {
      if exists i | 0 <= i < |topics| :: IsInternal(topics[i]) {
        return Err(InitTopicGuard);
      }
      if boot.None? {
        return Err(InitLibrary);
      }
      Install(boot.value);
      if !overlaysOk {
        return Err(InitOverlay);
      }
      RepublishSelfBindings();
      r := Ok(());
    }

    // ----- the event pump -----

    ghost predicate NoEmptySets()
      reads this
    {
      forall t | t in topicPeers :: topicPeers[t] != {}
    }

    ghost function InboxNow(forHost: seq<NetEvent>): Inbox
      reads this, bindings, chat
    {
      Inbox(bindings.entries, chat.history, forHost)
    }

    ghost function SelfNow(): Self
      reads this
    {
      Self(selfKey, selfId, chat.cap)
    }

    method OnSubscription(topic: Topic, peer: Peer, joined: bool) returns (formed: bool)
      requires NoEmptySets()
      modifies this`topicPeers
      ensures NoEmptySets()
      ensures forall t ::
                PeersIn(topicPeers, t) ==
                PeersAfter(old(PeersIn(topicPeers, t)), t, SubscriptionChange(topic, peer, joined))
      ensures formed <==> joined && old(PeersIn(topicPeers, topic)) == {}
    {
      var entry := PeersIn(topicPeers, topic);
      formed := false;
      if joined {
        formed := entry == {};
        topicPeers := topicPeers[topic := entry + {peer}];
      } else {
        entry := entry - {peer};
        if entry == {} {
          topicPeers := topicPeers - {topic};
        } else {
          topicPeers := topicPeers[topic := entry];
        }
      }
    }

    /** The loop of a disconnect: the peer leaves every set; which sets that emptied. */
    method LeaveAll(peer: Peer) returns (emptied: set<Topic>)
      requires NoEmptySets()
      modifies this`topicPeers
      ensures topicPeers == map t | t in old(topicPeers) :: old(topicPeers)[t] - {peer}
      ensures emptied == set t | t in topicPeers && topicPeers[t] == {}
    {
      ghost var before := topicPeers;
      var todo := topicPeers.Keys;
      emptied := {};
      while todo != {}
        invariant LeftSoFar(before, topicPeers, todo, emptied, peer)
        decreases todo
      {
        var t :| t in todo;
        ghost var sets, waiting, gone := topicPeers, todo, emptied;
        todo := todo - {t};
        var left := topicPeers[t] - {peer};
        if peer in topicPeers[t] && left == {} {
          emptied := emptied + {t};
        }
        topicPeers := topicPeers[t := left];
        LeaveOne(before, sets, waiting, gone, peer, t);
      }
    }

    /** The peer leaves every topic; topics it empties leave the table. */
    method OnPeerDown(peer: Peer)
      requires NoEmptySets()
      modifies this`topicPeers
      ensures NoEmptySets()
      ensures forall t :: PeersIn(topicPeers, t) == old(PeersIn(topicPeers, t)) - {peer}
    {
      var emptied := LeaveAll(peer);
      topicPeers := topicPeers - emptied;
    }

    /** Chat is shown, identity sets are absorbed; the rest is for the host. */
    method OnMessage(topic: Topic, from: Peer, bs: Octets) returns (forHost: bool)
      modifies chat, bindings
      ensures forall q :: InboxNow(if forHost then q + [Message(topic, from, bs)] else q) ==
                          Receive(env, SelfNow(), old(InboxNow(q)), Message(topic, from, bs))
    {
      if topic == CHAT_TOPIC || topic == LEGACY_CHAT_TOPIC {
        var incoming := IngestChat(env, topic, bs, selfKey, selfId);
        if incoming.Some? {
          chat.Push(EntryFor(bindings.entries, incoming.value));
        }
        return false;
      }
      if topic == IDENTITY_TOPIC && env.peerKey(from).Some? {
        var publisher := env.peerKey(from).value;
        bindings.Absorb(publisher, ParseAndVerify(env, bs, publisher));
        return false;
      }
      forHost := true;
    }

    /** The loop over one batch: what formed, and what is left for the host. */
    method RouteEvents(events: seq<NetEvent>) returns (flush: set<Topic>, forHost: seq<NetEvent>)
      requires NoEmptySets()
      modifies this`topicPeers, chat, bindings
      ensures NoEmptySets()
      ensures forall t :: PeersIn(topicPeers, t) == PeersAfterAll(old(PeersIn(topicPeers, t)), t, events)
      ensures forall t :: t in flush <==> Forms(old(PeersIn(topicPeers, t)), t, events)
      ensures InboxNow(forHost) == ReceiveAll(env, SelfNow(), old(InboxNow([])), events)
    {
      flush, forHost := {}, [];
      for i := 0 to |events|
        invariant NoEmptySets()
        invariant forall t :: PeersIn(topicPeers, t) == PeersAfterAll(old(PeersIn(topicPeers, t)), t, events[..i])
        invariant forall t :: t in flush <==> Forms(old(PeersIn(topicPeers, t)), t, events[..i])
        invariant InboxNow(forHost) == ReceiveAll(env, SelfNow(), old(InboxNow([])), events[..i])
      {
        assert events[..i + 1][..i] == events[..i];
        var formed, host := RouteEvent(events[i]);
        if formed {
          flush := flush + {events[i].topic};
        }
        if host {
          forHost := forHost + [events[i]];
        }
      }
      assert events[..|events|] == events;
    }

    method RouteEvent(e: NetEvent) returns (formed: bool, host: bool)
      requires NoEmptySets()
      modifies this`topicPeers, chat, bindings
      ensures NoEmptySets()
      ensures forall t :: PeersIn(topicPeers, t) == PeersAfter(old(PeersIn(topicPeers, t)), t, e)
      ensures formed <==> e.SubscriptionChange? && e.joined && old(PeersIn(topicPeers, e.topic)) == {}
      ensures forall q :: InboxNow(if host then q + [e] else q) == Receive(env, SelfNow(), old(InboxNow(q)), e)
    {
      formed, host := false, false;
      match e {
        case SubscriptionChange(topic, peer, joined) =>
          formed := OnSubscription(topic, peer, joined);
        case PeerDown(peer) =>
          OnPeerDown(peer);
          host := true;
        case Message(topic, from, bs) =>
          host := OnMessage(topic, from, bs);
        case NetError(_) =>
        case PeerUp(_) =>
          host := true;
      }
    }

    /** Routes one batch and queues what is the host's. */
    method IngestBatch(events: seq<NetEvent>) returns (flush: set<Topic>)
      requires NoEmptySets()
      modifies this`topicPeers, rx, chat, bindings
      ensures NoEmptySets()
      ensures forall t :: PeersIn(topicPeers, t) == PeersAfterAll(old(PeersIn(topicPeers, t)), t, events)
      ensures forall t :: t in flush <==> Forms(old(PeersIn(topicPeers, t)), t, events)
      ensures var after := ReceiveAll(env, SelfNow(), old(InboxNow([])), events);
        bindings.entries == after.table && chat.history == after.history
      ensures forall t :: rx.Queue(t) == old(rx.Queue(t)) + HostBytes(env, events, t)
      ensures old(GoodTable(env, bindings.entries)) ==> GoodTable(env, bindings.entries)
    {
      var forHost;
      flush, forHost := RouteEvents(events);
      rx.Ingest(forHost);
      forall t ensures Rx.BytesOn(forHost, t) == HostBytes(env, events, t) {
        QueuedIsForHost(env, SelfNow(), old(InboxNow([])), events, t);
      }
      if GoodTable(env, old(bindings.entries)) {
        ReceiveKeepsTable(env, SelfNow(), old(InboxNow([])), events);
      }
    }

    /** Polls the net and routes every event; topics that formed are flushed after the batch. */
    method DrainNetEvents()
      requires Valid()
      modifies this`topicPeers, this`pendingSends, NetSet(), rx, chat, bindings
      ensures Valid()
      ensures forall t :: BoxOf(t) == Drain(old(BoxOf(t)), t, old(Incoming()))
      ensures Incoming() == []
      ensures var after := ReceiveAll(env, SelfNow(), old(InboxNow([])), old(Incoming()));
        bindings.entries == after.table && chat.history == after.history
      ensures forall t :: rx.Queue(t) == old(rx.Queue(t)) + HostBytes(env, old(Incoming()), t)
      ensures old(IdentityOk()) ==> IdentityOk()
    {
      if net == null {
        return;
      }
      var events := net.PollEvents();
      var flush := IngestBatch(events);
      assert forall t :: BoxOf(t) == old(BoxOf(t)).(peers := PeersAfterAll(old(BoxOf(t)).peers, t, events));
      FlushAll(flush);
      forall t ensures BoxOf(t) == Drain(old(BoxOf(t)), t, events) && Settled(BoxOf(t)) {
        DrainSettles(old(BoxOf(t)), t, events);
      }
    }

    method PendingBytes(topic: Topic) returns (n: nat)
      requires Valid()
      modifies this`topicPeers, this`pendingSends, NetSet(), rx, chat, bindings
      ensures Valid()
      ensures forall t :: BoxOf(t) == Drain(old(BoxOf(t)), t, old(Incoming()))
      ensures Incoming() == []
      ensures var after := ReceiveAll(env, SelfNow(), old(InboxNow([])), old(Incoming()));
        bindings.entries == after.table && chat.history == after.history
      ensures old(IdentityOk()) ==> IdentityOk()
      ensures forall t :: rx.Queue(t) == old(rx.Queue(t)) + HostBytes(env, old(Incoming()), t)
      ensures n == Rx.Low32(Rx.Total(rx.Queue(topic)))
    {
      DrainNetEvents();
      label Drained:
      n := rx.PendingBytes(topic);
      assert forall t :: BoxOf(t) == old@Drained(BoxOf(t));
      forall t ensures Settled(BoxOf(t)) {
        assert BoxOf(t) == old@Drained(BoxOf(t));
      }
    }

    /** One receive: pump, then hand over the framed queue of the topic. */
    method RecvBytes(topic: Topic) returns (r: Octets)
      requires Valid()
      modifies this`topicPeers, this`pendingSends, NetSet(), rx, chat, bindings
      ensures Valid()
      ensures forall t :: BoxOf(t) == Drain(old(BoxOf(t)), t, old(Incoming()))
      ensures Incoming() == []
      ensures var after := ReceiveAll(env, SelfNow(), old(InboxNow([])), old(Incoming()));
        bindings.entries == after.table && chat.history == after.history
      ensures old(IdentityOk()) ==> IdentityOk()
      ensures var q := old(rx.Queue(topic)) + HostBytes(env, old(Incoming()), topic);
        r == Rx.RecvBuffer(q) && rx.Queue(topic) == Rx.RecvRest(q)
      ensures forall t | t != topic :: rx.Queue(t) == old(rx.Queue(t)) + HostBytes(env, old(Incoming()), t)
    {
      DrainNetEvents();
      label Drained:
      r := TakeQueue(topic);
      assert forall t :: BoxOf(t) == old@Drained(BoxOf(t));
      forall t ensures Settled(BoxOf(t)) {
        assert BoxOf(t) == old@Drained(BoxOf(t));
      }
    }

    /** Allocates exactly the pending count and drains into it. */
    method TakeQueue(topic: Topic) returns (r: Octets)
      modifies rx
      ensures r == Rx.RecvBuffer(old(rx.Queue(topic))) && rx.Queue(topic) == Rx.RecvRest(old(rx.Queue(topic)))
      ensures forall t | t != topic :: rx.Queue(t) == old(rx.Queue(t))
    {
      var n := rx.PendingBytes(topic);
      var buf := new byte[n](_ => 0);
      assert buf[..] == Rx.Zeros(n);
      var written := rx.DrainInto(topic, buf);
      r := buf[..];
      ghost var k := Rx.Fit(old(rx.Queue(topic)), n);
      Rx.ZerosFrom(n, Rx.Total(old(rx.Queue(topic))[..k]));
    }

    /** Flushes every topic of the set, in some order. */
    method FlushAll(topics: set<Topic>)
      modifies this`pendingSends, NetSet()`log
      ensures forall t :: BoxOf(t) == if t in topics then Flush(old(BoxOf(t))) else old(BoxOf(t))
    {
      var todo := topics;
      while todo != {}
        invariant todo <= topics
        invariant forall t :: BoxOf(t) == if t in topics && t !in todo then Flush(old(BoxOf(t))) else old(BoxOf(t))
        decreases todo
      {
        var topic :| topic in todo;
        todo := todo - {topic};
        FlushPendingFor(topic);
      }
    }
  }
}
