/** What holds of the plugin after any session: its identity, every topic's messages and mesh, and what the
    host has read. */
module PluginRuns {
  import opened Bytes
  import opened Platform
  import opened Identity
  import opened Chat
  import opened Net
  import opened App
  import opened Plugin
  import Outbox
  import Rx

  // ----- identity over whole sessions -----

  ghost predicate DiskOk(env: Platform, disk: Disk) {
    match disk.key
    case None => disk.bindings == [] && disk.saving == []
    case Some(k) =>
      && GoodSelf(env, k, disk.bindings)
      && forall i | 0 <= i < |disk.saving| :: GoodSelf(env, k, disk.saving[i])
  }

  ghost predicate StateOk(env: Platform, s: State) {
    && GoodTable(env, s.table) && DiskOk(env, s.disk)
    && (s.key.None? ==> s.bindings == [] && s.incoming == [] && !s.up)
    && (s.key.Some? ==> s.disk.key == s.key && GoodSelf(env, s.key.value, s.bindings))
  }

  lemma InitKeepsOk(env: Platform, s: State, topics: seq<Topic>, load: Load)
    requires StateOk(env, s)
    ensures StateOk(env, Initialized(s, topics, load))
  {
    assert DiskOk(env, Minted(s.disk, load));
  }

  lemma LoginKeepsOk(env: Platform, s: State, msg: LoginMessage)
    requires StateOk(env, s)
    ensures StateOk(env, LoggedInBy(env, s, msg))
  {
    var b := Accepted(env, s.key, msg);
    if b.Some? {
      LoginKeepsGoodSelf(env, s.key.value, s.bindings, b.value);
    }
  }

  lemma PollKeepsOk(env: Platform, s: State)
    requires StateOk(env, s)
    ensures StateOk(env, Polled(env, s))
  {
    ReceiveKeepsTable(env, SelfOf(s), Inbox(s.table, s.history, []), s.incoming);
  }

  lemma CallKeepsOk(env: Platform, s: State, c: Call)
    requires StateOk(env, s)
    ensures StateOk(env, After(env, s, c))
  {
    if c.Init? {
      InitKeepsOk(env, s, c.topics, c.load);
    } else if c.Login? {
      LoginKeepsOk(env, s, c.msg);
    } else if Polls(c) {
      PollKeepsOk(env, s);
    }
  }

  /** Over any session: every entry of the table is non-empty, verified and about its own key; the self
      bindings, the stored record and every save under way too, with one binding for each provider. A boot
      trusts the record, and may. */
  lemma {:induction false} SessionKeepsIdentity(env: Platform, calls: seq<Call>)
    ensures StateOk(env, StateOf(env, calls))
  {
    if calls != [] {
      SessionKeepsIdentity(env, calls[..|calls| - 1]);
      CallKeepsOk(env, StateOf(env, calls[..|calls| - 1]), calls[|calls| - 1]);
    }
  }

  // ----- outbound over whole sessions -----

  function PublishedBy(c: Call, t: Topic): seq<Octets> {
    if c.Publish? && c.topic == t then [c.bs] else []
  }

  /** What the host published on a topic since the page was loaded, in order. */
  function HostPublishes(calls: seq<Call>, t: Topic): seq<Octets> {
    if calls == [] || calls[|calls| - 1].Reload? then []
    else HostPublishes(calls[..|calls| - 1], t) + PublishedBy(calls[|calls| - 1], t)
  }

  lemma {:induction false} NoneDelivered(ops: seq<Outbox.Op>)
    requires forall i | 0 <= i < |ops| :: !ops[i].Deliver?
    ensures Outbox.Delivered(ops) == []
  {
    if ops != [] {
      NoneDelivered(ops[..|ops| - 1]);
    }
  }

  lemma {:induction false} NonePublished(ops: seq<Outbox.Op>)
    requires forall i | 0 <= i < |ops| :: !ops[i].Publish?
    ensures Outbox.Published(ops) == []
  {
    if ops != [] {
      NonePublished(ops[..|ops| - 1]);
    }
  }

  /** Only polls deliver, and only the plugin's own topics get publishes of its own. */
  lemma OpsByKinds(env: Platform, s: State, c: Call, t: Topic)
    ensures !Polls(c) ==> forall i | 0 <= i < |OpsBy(env, s, c, t)| :: !OpsBy(env, s, c, t)[i].Deliver?
    ensures !IsInternal(t) && !c.Publish? ==>
      forall i | 0 <= i < |OpsBy(env, s, c, t)| :: !OpsBy(env, s, c, t)[i].Publish?
  {
  }

  lemma DeliveredBy(env: Platform, s: State, c: Call, t: Topic)
    ensures Outbox.Delivered(OpsBy(env, s, c, t)) == if Polls(c) then s.incoming else []
  {
    if Polls(c) {
      assert [Outbox.Deliver(s.incoming)][..0] == [];
    } else {
      OpsByKinds(env, s, c, t);
      NoneDelivered(OpsBy(env, s, c, t));
    }
  }

  lemma PublishesBy(env: Platform, s: State, c: Call, t: Topic)
    requires !IsInternal(t)
    ensures Outbox.Published(OpsBy(env, s, c, t)) == PublishedBy(c, t)
  {
    if c.Publish? {
      assert [Outbox.Publish(c.bs)][..0] == [];
    } else {
      OpsByKinds(env, s, c, t);
      NonePublished(OpsBy(env, s, c, t));
    }
  }

  /** The outbox of every topic gets exactly the events that were polled, and that of a host topic exactly
      what the host published on it. */
  lemma {:induction false} OpsAreTheCalls(env: Platform, calls: seq<Call>, t: Topic)
    ensures Outbox.Delivered(OpsOf(env, calls, t)) == StateOf(env, calls).polled
    ensures !IsInternal(t) ==> Outbox.Published(OpsOf(env, calls, t)) == HostPublishes(calls, t)
  {
    if calls != [] && !calls[|calls| - 1].Reload? {
      var front, c := calls[..|calls| - 1], calls[|calls| - 1];
      var s := StateOf(env, front);
      OpsAreTheCalls(env, front, t);
      DeliveredBy(env, s, c, t);
      if !IsInternal(t) {
        PublishesBy(env, s, c, t);
      }
      Outbox.RunConcat(t, OpsOf(env, front, t), OpsBy(env, s, c, t));
      PolledAfter(env, s, c);
    }
  }

  lemma PolledAfter(env: Platform, s: State, c: Call)
    requires !c.Reload?
    ensures After(env, s, c).polled == s.polled + if Polls(c) then s.incoming else []
  {
    assert s.polled + [] == s.polled;
  }

  /** In-order account of everything published on a topic, its buffer, and its mesh by the newest events. */
  ghost predicate Accounted(t: Topic, ops: seq<Outbox.Op>, polled: seq<NetEvent>) {
    && Outbox.Ms(Outbox.Ledger(t, ops)) == Outbox.Published(ops)
    && Outbox.LedgerOk(Outbox.Ledger(t, ops), Outbox.Run(t, ops)) && Outbox.Settled(Outbox.Run(t, ops))
    && forall p :: p in Outbox.Run(t, ops).peers <==> Outbox.LastWord(t, p, polled) == Some(true)
  }

  /** So, for every topic after any session: what reached the net is an in-order part of what was
      published there, by the host or by the plugin itself; every message is sent, waiting, evicted by
      eight newer ones, or lost to a closed channel; a mesh leaves none waiting; and a peer is in the mesh
      exactly when the newest polled event about it is a subscription. */
  lemma {:induction false} EveryTopicAccountedFor(env: Platform, calls: seq<Call>, t: Topic)
    ensures Accounted(t, OpsOf(env, calls, t), StateOf(env, calls).polled)
  {
    var ops := OpsOf(env, calls, t);
    Outbox.LedgerHolds(t, ops);
    Outbox.RunSettled(t, ops);
    OpsAreTheCalls(env, calls, t);
    forall p
      ensures p in Outbox.Run(t, ops).peers <==> Outbox.LastWord(t, p, StateOf(env, calls).polled) == Some(true)
    {
      Outbox.MeshIsEventHistory(t, ops, p);
    }
  }

  /** Since the page was loaded, the channel has not been closed under a net. */
  predicate StaysOpen(env: Platform, calls: seq<Call>) {
    calls == [] || calls[|calls| - 1].Reload?
    || (StaysOpen(env, calls[..|calls| - 1])
        && (calls[|calls| - 1].ChannelCloses? ==> StateOf(env, calls[..|calls| - 1]).key.None?))
  }

  lemma OpsByKeepOpen(env: Platform, s: State, c: Call, t: Topic, ops: seq<Outbox.Op>)
    requires Outbox.KeepsOpen(ops) && (Outbox.SetUp(true) in ops <==> s.key.Some?)
    requires s.key.None? ==> s.incoming == []
    requires c.ChannelCloses? ==> s.key.None?
    ensures Outbox.KeepsOpen(ops + OpsBy(env, s, c, t))
  {
    var more := OpsBy(env, s, c, t);
    if |more| == 0 {
      assert ops + more == ops;
    } else if |more| == 1 {
      assert more == [more[0]];
      Outbox.KeepsOpenSnoc(ops, more[0]);
    } else {
      assert ops + more == (ops + [more[0]]) + [more[1]];
      Outbox.KeepsOpenSnoc(ops, more[0]);
      Outbox.KeepsOpenSnoc(ops + [more[0]], more[1]);
    }
  }

  lemma UpByBoot(env: Platform, s: State, c: Call, t: Topic)
    requires !c.Reload?
    ensures After(env, s, c).key.Some? <==> s.key.Some? || Outbox.SetUp(true) in OpsBy(env, s, c, t)
  {
  }

  lemma {:induction false} SessionKeepsOpen(env: Platform, calls: seq<Call>, t: Topic)
    requires StaysOpen(env, calls)
    ensures Outbox.KeepsOpen(OpsOf(env, calls, t))
    ensures Outbox.SetUp(true) in OpsOf(env, calls, t) <==> StateOf(env, calls).key.Some?
  {
    if calls != [] && !calls[|calls| - 1].Reload? {
      var front, c := calls[..|calls| - 1], calls[|calls| - 1];
      SessionKeepsOpen(env, front, t);
      SessionKeepsIdentity(env, front);
      OpsByKeepOpen(env, StateOf(env, front), c, t, OpsOf(env, front, t));
      UpByBoot(env, StateOf(env, front), c, t);
    }
  }

  /** A session whose channel stays open loses no message of any topic but to eviction, those published
      before the init included. */
  lemma {:induction false} OpenSessionLosesNothing(env: Platform, calls: seq<Call>, t: Topic)
    requires StaysOpen(env, calls)
    ensures Outbox.Lossless(Outbox.Ledger(t, OpsOf(env, calls, t)))
  {
    SessionKeepsOpen(env, calls, t);
    Outbox.OpenChannelLosesNothing(t, OpsOf(env, calls, t));
  }

  // ----- inbound over whole sessions -----

  lemma RxOpsDo(env: Platform, s: State, c: Call, t: Topic, ops: seq<Rx.RxOp>)
    ensures Rx.Arrived(ops + RxOpsBy(env, s, c, t)) == Rx.Arrived(ops) + Arriving(env, s, c, t)
    ensures Rx.RunRx(ops + RxOpsBy(env, s, c, t)) == RxAfter(env, s, c, t, Rx.RunRx(ops))
  {
    var arrived := ops + Rx.Arrivals(Arriving(env, s, c, t));
    Rx.RunArrivals(ops, Arriving(env, s, c, t));
    if c.Receive? && c.topic == t {
      assert ops + RxOpsBy(env, s, c, t) == arrived + [Rx.Receive];
      Rx.RxSnoc(arrived, Rx.Receive);
    } else {
      assert ops + RxOpsBy(env, s, c, t) == arrived;
    }
  }

  lemma {:induction false} ArrivedIsPolled(env: Platform, calls: seq<Call>, t: Topic)
    ensures Rx.Arrived(RxOpsOf(env, calls, t)) == HostBytes(env, StateOf(env, calls).polled, t)
  {
    if calls != [] && !calls[|calls| - 1].Reload? {
      var front, c := calls[..|calls| - 1], calls[|calls| - 1];
      var s := StateOf(env, front);
      ArrivedIsPolled(env, front, t);
      RxOpsDo(env, s, c, t, RxOpsOf(env, front, t));
      PolledAfter(env, s, c);
      if Polls(c) {
        HostBytesConcat(env, s.polled, s.incoming, t);
      } else {
        assert HostBytes(env, s.polled, t) + [] == HostBytes(env, s.polled, t);
        assert s.polled + [] == s.polled;
      }
    }
  }

  function ReadAndQueued(env: Platform, calls: seq<Call>, t: Topic): seq<Octets> {
    Rx.RunRx(RxOpsOf(env, calls, t)).read + Rx.RunRx(RxOpsOf(env, calls, t)).queue
  }

  /** As long as the queue fits the 32-bit count at each receive: what the host has read on a topic
      followed by what is still queued is, for an ordinary topic, every message polled on it, in order. */
  lemma {:induction false} ReadsArePolled(env: Platform, calls: seq<Call>, t: Topic)
    requires Rx.NeverWraps(RxOpsOf(env, calls, t))
    ensures ReadAndQueued(env, calls, t) == HostBytes(env, StateOf(env, calls).polled, t)
    ensures !IsInternal(t) ==> ReadAndQueued(env, calls, t) == Rx.BytesOn(StateOf(env, calls).polled, t)
  {
    Rx.ReadThenQueuedIsArrived(RxOpsOf(env, calls, t));
    ArrivedIsPolled(env, calls, t);
    HostReceivesItsTopics(env, StateOf(env, calls).polled, t);
  }

  lemma {:induction false} ChatIsNeverRead(env: Platform, calls: seq<Call>, t: Topic)
    requires t == CHAT_TOPIC || t == LEGACY_CHAT_TOPIC
    ensures Rx.RunRx(RxOpsOf(env, calls, t)) == Rx.RxRun([], [])
  {
    ArrivedIsPolled(env, calls, t);
    HostReceivesItsTopics(env, StateOf(env, calls).polled, t);
    Rx.NothingArrived(RxOpsOf(env, calls, t));
  }
}
