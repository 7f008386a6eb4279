/** What a page's calls come to, one kind of call at a time: the key is minted once and stays, every event
    that arrives is polled, a login that is saved comes back, and the chat shows the newest forty lines. */
module Life {
  import opened Bytes
  import opened Utf8
  import opened Me
  import opened Platform
  import Identity
  import opened Chat
  import opened Net
  import opened App
  import opened Plugin
  import opened PluginRuns
  import opened Received
  import Outbox
  import Rx

  lemma After1(env: Platform, calls: seq<Call>, c: Call)
    ensures StateOf(env, calls + [c]) == After(env, StateOf(env, calls), c)
  {
    assert (calls + [c])[..|calls|] == calls;
  }

  // ----- the key and the boot -----

  /** No topic of the host's is one of the plugin's own. */
  predicate OwnTopicsOnly(topics: seq<Topic>) {
    "laye-chat/v1" !in topics && "rave-chat/v1" !in topics && "laye-identity/v1" !in topics
  }

  lemma GuardIff(topics: seq<Topic>)
    ensures Guarded(topics) <==> !OwnTopicsOnly(topics)
  {
    if Guarded(topics) {
      var i :| 0 <= i < |topics| && IsInternal(topics[i]);
      assert topics[i] in topics;
    }
  }

  /** An init whose loading succeeds boots with the stored key, or with the one just minted and saved, and
      with the stored bindings, which become the key's entry. */
  lemma InitBoots(env: Platform, calls: seq<Call>, topics: seq<Topic>, load: Load, overlaysOk: bool)
    requires OwnTopicsOnly(topics) && load.rest
    requires StateOf(env, calls).disk.key.Some? || load.saved
    ensures var s, s' := StateOf(env, calls), StateOf(env, calls + [Init(topics, load, overlaysOk)]);
      var key := if s.disk.key.Some? then s.disk.key.value else load.minted;
      && s'.key == s'.disk.key == Some(key) && s'.up && s'.incoming == [] && s'.polled == s.polled
      && s'.bindings == s'.disk.bindings == s.disk.bindings && s'.history == s.history
      && (s'.bindings != [] ==> s'.table == s.table[key := s'.bindings])
      && (s'.bindings == [] ==> s'.table == s.table)
  {
    After1(env, calls, Init(topics, load, overlaysOk));
    GuardIff(topics);
  }

  /** Any other init changes nothing but a key that is minted and saved. */
  lemma InitFails(env: Platform, calls: seq<Call>, topics: seq<Topic>, load: Load, overlaysOk: bool)
    requires !OwnTopicsOnly(topics) || !load.rest || (StateOf(env, calls).disk.key.None? && !load.saved)
    ensures var s, s' := StateOf(env, calls), StateOf(env, calls + [Init(topics, load, overlaysOk)]);
      var minted := OwnTopicsOnly(topics) && s.disk.key.None? && load.saved;
      s' == if minted then s.(disk := s.disk.(key := Some(load.minted))) else s
  {
    After1(env, calls, Init(topics, load, overlaysOk));
    GuardIff(topics);
  }

  lemma KeyAfter(env: Platform, s: State, c: Call)
    requires s.disk.key.Some?
    ensures After(env, s, c).disk.key == s.disk.key
  {
  }

  lemma RecordAfter(env: Platform, s: State, c: Call)
    requires !c.SaveEnds?
    ensures After(env, s, c).disk.bindings == s.disk.bindings
  {
  }

  /** A key once stored is stored ever after, over reloads too. */
  lemma {:induction false} KeyPersists(env: Platform, calls: seq<Call>, more: seq<Call>)
    requires StateOf(env, calls).disk.key.Some?
    ensures StateOf(env, calls + more).disk.key == StateOf(env, calls).disk.key
  {
    if more == [] {
      assert calls + more == calls;
    } else {
      var front, c := more[..|more| - 1], more[|more| - 1];
      KeyPersists(env, calls, front);
      KeyAfter(env, StateOf(env, calls + front), c);
      assert calls + more == (calls + front) + [c];
      After1(env, calls + front, c);
    }
  }

  // ----- events -----

  /** Everything that arrives, in order. */
  function ArrivingIn(calls: seq<Call>): seq<NetEvent> {
    if calls == [] then []
    else ArrivingIn(calls[..|calls| - 1]) + if calls[|calls| - 1].EventsArrive? then calls[|calls| - 1].events else []
  }

  lemma EventsAfter(env: Platform, s: State, c: Call)
    requires s.key.Some? && !c.Init? && !c.Reload?
    ensures var s' := After(env, s, c);
      && s'.key == s.key
      && s'.polled + s'.incoming == s.polled + s.incoming + (if c.EventsArrive? then c.events else [])
  {
    assert s.polled + s.incoming + [] == s.polled + s.incoming;
    if c.EventsArrive? {
      ConcatAssoc(s.polled, s.incoming, c.events);
    }
  }

  /** Between inits, what a booted page has polled followed by what still waits is what arrived. */
  lemma {:induction false} EventsAreKept(env: Platform, calls: seq<Call>, more: seq<Call>)
    requires StateOf(env, calls).key.Some? && forall c | c in more :: !c.Init? && !c.Reload?
    ensures var s, s' := StateOf(env, calls), StateOf(env, calls + more);
      s'.key == s.key && s'.polled + s'.incoming == s.polled + s.incoming + ArrivingIn(more)
  {
    if more == [] {
      assert calls + more == calls;
      var all := StateOf(env, calls).polled + StateOf(env, calls).incoming;
      assert all + [] == all;
    } else {
      var front, c := more[..|more| - 1], more[|more| - 1];
      assert c in more && forall x | x in front :: x in more;
      EventsAreKept(env, calls, front);
      assert calls + more == (calls + front) + [c];
      After1(env, calls + front, c);
      EventsAfter(env, StateOf(env, calls + front), c);
      var all := StateOf(env, calls).polled + StateOf(env, calls).incoming;
      ConcatAssoc(all, ArrivingIn(front), if c.EventsArrive? then c.events else []);
    }
  }

  /** And a pump, a count or a receive leaves nothing waiting. */
  lemma PollLeavesNothing(env: Platform, calls: seq<Call>, c: Call)
    requires c.Pump? || c.CountPending? || c.Receive?
    ensures StateOf(env, calls + [c]).incoming == []
  {
    After1(env, calls, c);
  }

  lemma CloseShuts(env: Platform, calls: seq<Call>)
    ensures !StateOf(env, calls + [ChannelCloses]).up
  {
    After1(env, calls, ChannelCloses);
  }

  lemma ReceiveEmpties(ops: seq<Rx.RxOp>)
    requires Rx.NeverWraps(ops + [Rx.Receive])
    ensures Rx.RunRx(ops + [Rx.Receive]).queue == []
  {
    assert (ops + [Rx.Receive])[..|ops|] == ops;
    Rx.RxSnoc(ops, Rx.Receive);
    Rx.RecvTakesAll(Rx.RunRx(ops).queue);
  }

  lemma ReceiveIsLast(env: Platform, calls: seq<Call>, t: Topic) returns (ops: seq<Rx.RxOp>)
    ensures RxOpsOf(env, calls + [Receive(t)], t) == ops + [Rx.Receive]
  {
    assert (calls + [Receive(t)])[..|calls|] == calls;
    ops := RxOpsOf(env, calls, t) + Rx.Arrivals(Arriving(env, StateOf(env, calls), Receive(t), t));
  }

  /** After a receive the host has read everything that was polled for it on that topic, and nothing waits. */
  lemma ReceiveReadsAll(env: Platform, calls: seq<Call>, t: Topic)
    requires Rx.NeverWraps(RxOpsOf(env, calls + [Receive(t)], t))
    ensures Rx.RunRx(RxOpsOf(env, calls + [Receive(t)], t)).queue == []
    ensures Rx.RunRx(RxOpsOf(env, calls + [Receive(t)], t)).read
      == HostBytes(env, StateOf(env, calls + [Receive(t)]).polled, t)
  {
    var ops := ReceiveIsLast(env, calls, t);
    ReceiveEmpties(ops);
    ReadsArePolled(env, calls + [Receive(t)], t);
    var read := Rx.RunRx(ops + [Rx.Receive]).read;
    assert read + [] == read;
  }

  // ----- logins and the record -----

  /** The login message brings this binding, valid and about this tab's own key. */
  predicate Brings(env: Platform, key: Option<Key>, msg: LoginMessage, b: SignedBinding) {
    && msg == Link(Some(b)) && key == Some(b.claim.peer)
    && env.verifySig(b.signer, ClaimBytes(b.claim), b.signature)
  }

  lemma BringsIsAccepted(env: Platform, key: Option<Key>, msg: LoginMessage, b: SignedBinding)
    requires Brings(env, key, msg, b)
    ensures Accepted(env, key, msg) == Some(b)
  {
  }

  /** Such a login takes effect at once and starts to be saved. */
  lemma LoginTakes(env: Platform, calls: seq<Call>, msg: LoginMessage, b: SignedBinding)
    requires Brings(env, StateOf(env, calls).key, msg, b)
    ensures var s, s' := StateOf(env, calls), StateOf(env, calls + [Login(msg)]);
      var next := Identity.LoggedIn(s.bindings, b);
      && s'.bindings == next && s'.table == s.table[b.claim.peer := next] && s'.key == s.key
      && s'.disk == s.disk.(saving := s.disk.saving + [next])
  {
    After1(env, calls, Login(msg));
    LoginAfter(env, StateOf(env, calls), msg, b);
  }

  lemma LoginAfter(env: Platform, s: State, msg: LoginMessage, b: SignedBinding)
    requires Brings(env, s.key, msg, b)
    ensures var next := Identity.LoggedIn(s.bindings, b);
      After(env, s, Login(msg)) == s.(bindings := next, table := s.table[b.claim.peer := next],
                                      disk := s.disk.(saving := s.disk.saving + [next]))
  {
    BringsIsAccepted(env, s.key, msg, b);
  }

  /** Any other changes nothing. */
  lemma LoginFails(env: Platform, calls: seq<Call>, msg: LoginMessage)
    requires forall b :: !Brings(env, StateOf(env, calls).key, msg, b)
    ensures StateOf(env, calls + [Login(msg)]) == StateOf(env, calls)
  {
    After1(env, calls, Login(msg));
    if msg.Link? && msg.signed.Some? {
      assert !Brings(env, StateOf(env, calls).key, msg, msg.signed.value);
    }
  }

  /** A save that ends well writes its snapshot, one that fails writes nothing; either is over. */
  lemma SaveEndsExactly(env: Platform, calls: seq<Call>, n: nat, stored: bool)
    ensures var s, s' := StateOf(env, calls), StateOf(env, calls + [SaveEnds(n, stored)]);
      if n < |s.disk.saving|
      then s'.disk == Disk(s.disk.key, if stored then s.disk.saving[n] else s.disk.bindings,
                           s.disk.saving[..n] + s.disk.saving[n + 1..])
      else s' == s
  {
    After1(env, calls, SaveEnds(n, stored));
  }

  /** The record changes only when a save ends. */
  lemma {:induction false} RecordStays(env: Platform, calls: seq<Call>, more: seq<Call>)
    requires forall c | c in more :: !c.SaveEnds?
    ensures StateOf(env, calls + more).disk.bindings == StateOf(env, calls).disk.bindings
  {
    if more == [] {
      assert calls + more == calls;
    } else {
      var front, c := more[..|more| - 1], more[|more| - 1];
      assert c in more && forall x | x in front :: x in more;
      RecordStays(env, calls, front);
      RecordAfter(env, StateOf(env, calls + front), c);
      assert calls + more == (calls + front) + [c];
      After1(env, calls + front, c);
    }
  }

  lemma BootBringsRecord(env: Platform, calls: seq<Call>, topics: seq<Topic>, load: Load, overlaysOk: bool, k: Key)
    requires OwnTopicsOnly(topics) && load.rest && StateOf(env, calls).disk.key == Some(k)
    ensures var s, s' := StateOf(env, calls), StateOf(env, calls + [Reload] + [Init(topics, load, overlaysOk)]);
      && s'.key == Some(k) && s'.bindings == s.disk.bindings
      && s'.table == if s.disk.bindings == [] then map[] else map[k := s.disk.bindings]
  {
    After1(env, calls, Reload);
    InitBoots(env, calls + [Reload], topics, load, overlaysOk);
  }

  /** An accepted login whose save ends well is there again after any other calls, a reload and an init:
      its binding first, the other providers' behind it, under the same key. */
  lemma SavedLoginReturns(env: Platform, calls: seq<Call>, msg: LoginMessage, b: SignedBinding, more: seq<Call>,
                          topics: seq<Topic>, load: Load, overlaysOk: bool)
    requires Brings(env, StateOf(env, calls).key, msg, b) && forall c | c in more :: !c.SaveEnds?
    requires OwnTopicsOnly(topics) && load.rest
    ensures var s, next := StateOf(env, calls), Identity.LoggedIn(StateOf(env, calls).bindings, b);
      var saved := calls + [Login(msg)] + [SaveEnds(|s.disk.saving|, true)];
      var s' := StateOf(env, saved + more + [Reload] + [Init(topics, load, overlaysOk)]);
      s'.key == s.key && s'.bindings == next && s'.table == map[b.claim.peer := next]
  {
    var s := StateOf(env, calls);
    var saved := calls + [Login(msg)] + [SaveEnds(|s.disk.saving|, true)];
    SessionKeepsIdentity(env, calls);
    LoginTakes(env, calls, msg, b);
    SaveEndsExactly(env, calls + [Login(msg)], |s.disk.saving|, true);
    RecordStays(env, saved, more);
    KeyPersists(env, saved, more);
    BootBringsRecord(env, saved + more, topics, load, overlaysOk, b.claim.peer);
  }

  /** One whose save never ends is gone with the page, and what was stored before comes back. */
  lemma UnsavedLoginIsGone(env: Platform, calls: seq<Call>, msg: LoginMessage, more: seq<Call>,
                           topics: seq<Topic>, load: Load, overlaysOk: bool, k: Key)
    requires StateOf(env, calls).disk.key == Some(k) && forall c | c in more :: !c.SaveEnds?
    requires OwnTopicsOnly(topics) && load.rest
    ensures var all := calls + [Login(msg)] + more + [Reload] + [Init(topics, load, overlaysOk)];
      StateOf(env, all).bindings == StateOf(env, calls).disk.bindings && StateOf(env, all).key == Some(k)
  {
    var later := [Login(msg)] + more;
    assert calls + [Login(msg)] + more == calls + later;
    RecordStays(env, calls, later);
    KeyPersists(env, calls, later);
    BootBringsRecord(env, calls + later, topics, load, overlaysOk, k);
  }

  // ----- what a poll makes known -----

  /** The last set that a key published among the waiting events is its entry after a poll, as far as its
      bindings count; a key that published nothing keeps the entry it has. */
  lemma PollAbsorbs(env: Platform, calls: seq<Call>, c: Call, i: nat, k: Key)
    requires c.Pump? || c.CountPending? || c.Receive?
    requires i < |StateOf(env, calls).incoming| && IsGossip(env, StateOf(env, calls).incoming[i], k)
    requires forall j | i < j < |StateOf(env, calls).incoming| :: !IsGossip(env, StateOf(env, calls).incoming[j], k)
    ensures var table := StateOf(env, calls + [c]).table;
      var list := env.parseBindings(StateOf(env, calls).incoming[i].bs);
      forall b :: k in table && b in table[k] <==> list.Some? && b in list.value && Counts(env, k, b)
  {
    var s := StateOf(env, calls);
    After1(env, calls, c);
    GossipDecides(env, SelfOf(s), Inbox(s.table, s.history, []), s.incoming, i, k);
  }

  lemma PollLeavesOthers(env: Platform, calls: seq<Call>, c: Call, k: Key)
    requires c.Pump? || c.CountPending? || c.Receive?
    requires forall j | 0 <= j < |StateOf(env, calls).incoming| :: !IsGossip(env, StateOf(env, calls).incoming[j], k)
    ensures SameEntry(StateOf(env, calls + [c]).table, StateOf(env, calls).table, k)
  {
    var s := StateOf(env, calls);
    After1(env, calls, c);
    OthersStay(env, SelfOf(s), Inbox(s.table, s.history, []), s.incoming, k);
  }

  // ----- the chat -----

  /** A booted tab goes by its key and the hex of it, so its own messages, signed or plain, are not shown
      when they come back. */
  lemma OwnIsNotShown(env: Platform, s: State, e: NetEvent, k: Key)
    requires s.key == Some(k) && e.Message?
    requires e.topic == "laye-chat/v1" ==>
      env.parseChat(e.bs).Some? && env.parseChat(e.bs).value.author == k
    requires e.topic == "rave-chat/v1" ==>
      env.parsePlain(e.bs).Some? && env.parsePlain(e.bs).value.peer == HexOf(k)
    ensures LineOf(env, SelfOf(s), s.table, e) == []
  {
  }

  /** What Enter shows: the line it sends, cut to 512 bytes. It is sent when there is a key that signs it,
      and it waits for a mesh or the channel takes it. */
  function LinesSaid(env: Platform, s: State, meshed: bool, value: Text, now: nat): seq<ChatEntry> {
    var body := LongestValid(value, 512);
    if value != [] && s.key.Some? && env.signChat(s.key.value, body, now).Some? && (s.up || !meshed)
    then [ChatEntry(Ascii("me"), body)]
    else []
  }

  /** What a poll shows: the lines it receives. */
  function LinesPolled(env: Platform, s: State): seq<ChatEntry> {
    LinesOf(env, SelfOf(s), Inbox(s.table, s.history, []), s.incoming)
  }

  ghost function LinesBy(env: Platform, s: State, c: Call): seq<ChatEntry> {
    if c.Say? then LinesSaid(env, s, !Outbox.Unmeshed("laye-chat/v1", s.polled), c.value, c.now)
    else if c.Pump? || c.CountPending? || c.Receive? then LinesPolled(env, s)
    else []
  }

  ghost function Lines(env: Platform, calls: seq<Call>): seq<ChatEntry> {
    if calls == [] || calls[|calls| - 1].Reload? then []
    else
      var front := calls[..|calls| - 1];
      Lines(env, front) + LinesBy(env, StateOf(env, front), calls[|calls| - 1])
  }

  lemma MeshedIff(polled: seq<NetEvent>, t: Topic)
    ensures MeshedOn(polled, t) <==> !Outbox.Unmeshed(t, polled)
  {
    Outbox.NobodyIff({}, t, polled);
    assert forall p :: Outbox.InMesh({}, t, polled, p) <==> Outbox.IsIn(t, p, polled);
  }

  lemma SentLine(env: Platform, s: State, meshed: bool, value: Text, now: nat)
    ensures var body := LongestValid(value, 512);
      LinesSaid(env, s, meshed, value, now) ==
      if value != [] && ChatAnswer(env, s.key, meshed, s.up, body, now).Ok? then [MyLine(body)] else []
  {
  }

  lemma SayShows(env: Platform, s: State, meshed: bool, value: Text, now: nat, lines: seq<ChatEntry>)
    requires |s.history| <= 40 && lines == LinesSaid(env, s, meshed, value, now)
    ensures Said(env, s, meshed, value, now).history == LastN(s.history + lines, 40)
  {
    SentLine(env, s, meshed, value, now);
    assert s.history + [] == s.history;
  }

  lemma PollShows(env: Platform, s: State)
    requires |s.history| <= 40
    ensures Polled(env, s).history == LastN(s.history + LinesPolled(env, s), 40)
  {
    BatchShows(env, SelfOf(s), Inbox(s.table, s.history, []), s.incoming);
  }

  lemma OthersShowNothing(env: Platform, s: State, c: Call)
    requires !Polls(c) && !c.Say? && !c.Reload?
    ensures After(env, s, c).history == s.history
  {
  }

  lemma CallShows(env: Platform, s: State, c: Call)
    requires !c.Reload? && |s.history| <= 40
    ensures After(env, s, c).history == LastN(s.history + LinesBy(env, s, c), 40)
  {
    if c.Say? {
      MeshedIff(s.polled, CHAT_TOPIC);
      SayShows(env, s, MeshedOn(s.polled, CHAT_TOPIC), c.value, c.now, LinesBy(env, s, c));
    } else if Polls(c) {
      PollShows(env, s);
    } else {
      OthersShowNothing(env, s, c);
      assert s.history + [] == s.history;
    }
  }

  /** The chat shows the newest forty of all lines since the page was loaded, those received and those sent. */
  lemma {:induction false} HistoryIsNewestForty(env: Platform, calls: seq<Call>)
    ensures StateOf(env, calls).history == LastN(Lines(env, calls), 40)
  {
    if calls != [] && !calls[|calls| - 1].Reload? {
      var front, c := calls[..|calls| - 1], calls[|calls| - 1];
      HistoryIsNewestForty(env, front);
      CallShows(env, StateOf(env, front), c);
      LastNTwice(Lines(env, front), LinesBy(env, StateOf(env, front), c), 40);
    }
  }

  // ----- what the plugin publishes of its own -----

  /** The encoded set, if there is anything in it and it encodes. */
  function SetOnWire(env: Platform, bs: seq<SignedBinding>): seq<Octets> {
    match env.encodeBindings(bs)
    case None => []
    case Some(wire) => if bs == [] then [] else [wire]
  }

  function LineOnWire(env: Platform, key: Option<Key>, value: Text, now: nat): seq<Octets> {
    match key
    case None => []
    case Some(k) =>
      (match env.signChat(k, LongestValid(value, 512), now)
       case None => []
       case Some(wire) => if value == [] then [] else [wire])
  }

  lemma PublishesMore(env: Platform, calls: seq<Call>, c: Call, t: Topic)
    requires !c.Reload?
    ensures Outbox.Published(OpsOf(env, calls + [c], t)) ==
            Outbox.Published(OpsOf(env, calls, t)) + Outbox.Published(OpsBy(env, StateOf(env, calls), c, t))
  {
    assert (calls + [c])[..|calls|] == calls;
    Outbox.PublishedConcat(OpsOf(env, calls, t), OpsBy(env, StateOf(env, calls), c, t));
  }

  lemma OnePublished(m: Octets)
    ensures Outbox.Published([Outbox.Publish(m)]) == [m]
  {
    assert [Outbox.Publish(m)][..0] == [];
  }

  /** The identity topic, and no other, gets the set. */
  lemma AnnouncePublishes(env: Platform, t: Topic, bs: seq<SignedBinding>)
    ensures Outbox.Published(AnnounceOps(env, t, bs)) == if t == "laye-identity/v1" then SetOnWire(env, bs) else []
  {
    if env.encodeBindings(bs).Some? {
      OnePublished(env.encodeBindings(bs).value);
    }
  }

  /** Enter publishes the signed line on the chat topic. */
  lemma SayPublishes(env: Platform, calls: seq<Call>, value: Text, now: nat, t: Topic)
    ensures Outbox.Published(OpsOf(env, calls + [Say(value, now)], t)) ==
            Outbox.Published(OpsOf(env, calls, t)) +
            if t == "laye-chat/v1" then LineOnWire(env, StateOf(env, calls).key, value, now) else []
  {
    PublishesMore(env, calls, Say(value, now), t);
    var wire := SayWire(env, StateOf(env, calls).key, value, now);
    if wire.Some? {
      OnePublished(wire.value);
    }
  }

  /** An accepted login publishes the whole new set on the identity topic. */
  lemma LoginPublishes(env: Platform, calls: seq<Call>, msg: LoginMessage, b: SignedBinding, t: Topic)
    requires Brings(env, StateOf(env, calls).key, msg, b)
    ensures Outbox.Published(OpsOf(env, calls + [Login(msg)], t)) ==
            Outbox.Published(OpsOf(env, calls, t)) +
            if t == "laye-identity/v1" then SetOnWire(env, Identity.LoggedIn(StateOf(env, calls).bindings, b)) else []
  {
    PublishesMore(env, calls, Login(msg), t);
    LoginOps(env, StateOf(env, calls), msg, b, t);
    AnnouncePublishes(env, t, Identity.LoggedIn(StateOf(env, calls).bindings, b));
  }

  lemma LoginOps(env: Platform, s: State, msg: LoginMessage, b: SignedBinding, t: Topic)
    requires Brings(env, s.key, msg, b)
    ensures OpsBy(env, s, Login(msg), t) == AnnounceOps(env, t, Identity.LoggedIn(s.bindings, b))
  {
    BringsIsAccepted(env, s.key, msg, b);
  }

  /** A boot publishes the stored set there. */
  lemma BootPublishes(env: Platform, calls: seq<Call>, topics: seq<Topic>, load: Load, t: Topic)
    requires OwnTopicsOnly(topics) && load.rest
    requires StateOf(env, calls).disk.key.Some? || load.saved
    ensures Outbox.Published(OpsOf(env, calls + [Init(topics, load, true)], t)) ==
            Outbox.Published(OpsOf(env, calls, t)) +
            if t == "laye-identity/v1" then SetOnWire(env, StateOf(env, calls).disk.bindings) else []
  {
    PublishesMore(env, calls, Init(topics, load, true), t);
    BootOps(env, StateOf(env, calls), topics, load, t);
    AnnouncePublishes(env, t, StateOf(env, calls).disk.bindings);
  }

  lemma BootOps(env: Platform, s: State, topics: seq<Topic>, load: Load, t: Topic)
    requires OwnTopicsOnly(topics) && load.rest && (s.disk.key.Some? || load.saved)
    ensures Outbox.Published(OpsBy(env, s, Init(topics, load, true), t))
      == Outbox.Published(AnnounceOps(env, t, s.disk.bindings))
  {
    GuardIff(topics);
    var up := [Outbox.SetUp(true)];
    assert OpsBy(env, s, Init(topics, load, true), t) == up + AnnounceOps(env, t, s.disk.bindings);
    Outbox.PublishedConcat(up, AnnounceOps(env, t, s.disk.bindings));
    assert up[..0] == [] && Outbox.Published(up) == [];
  }
}
